/** When a failure halts a run: exactly on the graphs in which no fork can be reached. */
module FailureHalts {
  import opened Collections
  import opened WorkflowGraphs
  import opened GraphValidation
  import opened GraphPaths
  import opened WorkflowWalk
  import opened ValidatedGraphs
  import opened WorkflowRuns
  import opened WorkflowRunner
  import opened WorkflowMachine
  import opened Flows
  import opened WalkFacts
  import opened ReachableForks
  import opened NoForksAhead
  import opened ForksAhead
  import opened RunLifecycle

  // ---------- without forks a failure halts the run ----------

  ghost predicate PendingVisitable(env: Env, root: string, p: Proc)
  {
    forall x :: x in WorkflowMachine.Pending(p) ==> Visitable(env.graph, root, x)
  }

  lemma {:induction false} LeafIsPending(p: Proc)
    requires Leaf(p).Logged? || Leaf(p).Merged?
    ensures Leaf(p).node in WorkflowMachine.Pending(p)
  {
    match p
    case Flow(cur, _) => LeafIsPending(cur);
    case _ =>
  }

  lemma {:induction false} PendingOfForkOf(nodes: seq<Node>)
    ensures forall x :: x in WorkflowMachine.Pending(ForkOf(nodes)) ==> x in nodes
  {
    if nodes != [] {
      PendingOfForkOf(nodes[1..]);
    }
  }

  lemma PendingOfFlow(cur: Proc, rest: seq<Node>)
    ensures forall x :: x in WorkflowMachine.Pending(Flow(cur, rest)) <==>
              x in WorkflowMachine.Pending(cur) || x in rest
  {
    forall x | x in rest
      ensures x in WorkflowMachine.Pending(Flow(cur, rest))
    {
      assert x in (set y | y in rest);
    }
  }

  lemma {:induction false} StepKeepsVisitable(env: Env, root: string, p: Proc, pick: Pick, n: nat, vars: Vars)
    requires PendingVisitable(env, root, p) && Step(env, p, pick, n, vars).Some?
    ensures PendingVisitable(env, root, Step(env, p, pick, n, vars).value.proc)
  {
    hide Visitable, Next;
    match p
    case Logged(node, res) =>
      assert node in WorkflowMachine.Pending(p);
      PendingOfForkOf(Next(env, node.id, vars));
      if res.ok && node.kind != END {
        NextAreVisitable(env, root, node, vars);
        PendingOfFlow(Finished, Next(env, node.id, vars));
      }
    case Flow(cur, rest) =>
      PendingOfFlow(cur, rest);
      if Resolved(cur) && rest != [] {
        PendingOfFlow(Ready(rest[0]), rest[1..]);
      } else {
        StepKeepsVisitable(env, root, cur, pick, n, vars);
        PendingOfFlow(Step(env, cur, pick, n, vars).value.proc, rest);
      }
    case Fork(head, tail) =>
      if pick.InHead? {
        StepKeepsVisitable(env, root, head, pick.pick, n, vars);
      } else {
        StepKeepsVisitable(env, root, tail, pick.pick, n, vars);
      }
    case _ =>
  }

  lemma StepKeepsForkless(env: Env, root: string, p: Proc, pick: Pick, n: nat, vars: Vars)
    requires NeverForks(env, root) && PendingVisitable(env, root, p) && Forkless(p) && Step(env, p, pick, n, vars).Some?
    ensures Forkless(Step(env, p, pick, n, vars).value.proc)
  {
    hide Step, NeverForks;
    ForklessStep(env, p, pick, n, vars);
    if Leaf(p).Logged? {
      var node, res := Leaf(p).node, Leaf(p).res;
      LeafIsPending(p);
      NeverForksHere(env, root, node, vars);
      LeafOfWithLeaf(p, Resume(env, node, res, vars));
    }
  }

  lemma {:induction false} HistoryKeepsForkless(env: Env, root: string, s: System, evs: seq<Event>)
    requires NeverForks(env, root) && PendingVisitable(env, root, s.machine.proc) && Forkless(s.machine.proc)
    requires var t := FindTrigger(env.graph.nodes); t.Some? ==> Visitable(env.graph, root, t.value)
    requires History(env, s, evs).Some?
    ensures Forkless(History(env, s, evs).value.machine.proc)
    decreases |evs|
  {
    hide Step, Resolved, Errors, NeverForks, Visitable, FindTrigger;
    if evs != [] {
      if evs[0].Move? {
        var m := s.machine;
        StepKeepsForkless(env, root, m.proc, evs[0].pick, m.step, m.vars);
        StepKeepsVisitable(env, root, m.proc, evs[0].pick, m.step, m.vars);
      }
      HistoryKeepsForkless(env, root, Perform(env, s, evs[0]).value, evs[1..]);
    }
  }

  lemma {:induction false} ThrownIsStill(env: Env, p: Proc, pick: Pick, n: nat, vars: Vars)
    requires Forkless(p) && Throws(p)
    ensures Step(env, p, pick, n, vars).None?
  {
    match p
    case Flow(cur, _) =>
      if Resolved(cur) {
        ResolvedIsStill(env, cur, pick, n, vars);
      }
      ThrownIsStill(env, cur, pick, n, vars);
    case _ =>
  }

  lemma {:induction false} StillMachineStays(env: Env, s: System, evs: seq<Event>)
    requires s.phase == Settled && History(env, s, evs).Some?
    requires forall pick :: Step(env, s.machine.proc, pick, s.machine.step, s.machine.vars).None?
    ensures History(env, s, evs).value.machine == s.machine
    decreases |evs|
  {
    hide Step, Resolved, FindTrigger, Errors;
    if evs != [] {
      StillMachineStays(env, Perform(env, s, evs[0]).value, evs[1..]);
    }
  }

  /** Where no two edges of a PARALLEL node ever match at a time, a failure does halt the run: from the moment
      the row says FAILED, no node is executed and no row is written. */
  lemma SequentialFailureHalts(env: Env, root: string, row: RunRow, before: seq<Event>, after: seq<Event>)
    requires NeverForks(env, root) && Created(row)
    requires var t := FindTrigger(env.graph.nodes); t.Some? ==> Visitable(env.graph, root, t.value)
    requires var s := History(env, Initial(row), before);
             s.Some? && s.value.row.status == FAILED && History(env, s.value, after).Some?
    ensures var s := History(env, Initial(row), before).value;
            History(env, s, after).value.machine == s.machine
  {
    hide Step, Errors, NeverForks, History, Throws, FindTrigger, Visitable;
    var s := History(env, Initial(row), before).value;
    HistoryKeepsSound(env, Initial(row), before);
    HistoryKeepsForkless(env, root, Initial(row), before);
    var m := s.machine;
    forall pick
      ensures Step(env, m.proc, pick, m.step, m.vars).None?
    {
      if Throws(m.proc) {
        ThrownIsStill(env, m.proc, pick, m.step, m.vars);
      } else {
        ResolvedIsStill(env, m.proc, pick, m.step, m.vars);
      }
    }
    StillMachineStays(env, s, after);
  }

  // ---------- from the fork to a row after the failure ----------

  lemma {:induction false} LeafErrors(p: Proc, q: Proc)
    ensures Errors(WithLeaf(p, q)) == Errors(q)
  {
    match p
    case Flow(cur, _) => LeafErrors(cur, q);
    case _ =>
  }

  lemma {:induction false} BranchErrors(p: Proc, i: nat, error: string)
    requires Branch(p, i) == Some(Rejected(error))
    ensures error in Errors(p) && !Resolved(p)
  {
    if i > 0 {
      BranchErrors(p.tail, i - 1, error);
    }
  }

  /** From step `n` on, handlers fail unless they are entered at step `s`. */
  ghost predicate FailsBut(env: Env, n: nat, s: nat)
  {
    forall k: nat, node, v :: k > n ==> env.handler(k, node, v) == if k == s then SUCCESS else FAILURE
  }

  /** Of the branches that were all entered, `o` has rejected or rejects next. */
  lemma OtherFails(env: Env, next: seq<Node>, o: nat, s: nat, n: nat, vars: Vars, log: seq<LogRow>)
    returns (picks: seq<Pick>, t: Machine, error: string)
    requires o < |next| && FailsBut(env, n, s) && s != n + 1 + o
    ensures Execute(env, Machine(Entered(env, next, n, vars), n + |next|, vars, log), picks) == Some(t)
    ensures t.step == n + |next| && t.vars == vars
    ensures t.proc == WithBranch(Entered(env, next, n, vars), o, Rejected(error))
  {
    hide Step, Row, THRICE;
    var p := Entered(env, next, n, vars);
    EnteredBranch(env, next, n, vars, o);
    if next[o].kind in HANDLED {
      var m := Machine(Executing(next[o], FAILURE), n + |next|, vars, log);
      BranchFails(env, next[o], n + |next|, vars, log);
      BranchRun(env, p, o, m, THRICE);
      picks, error := Map(THRICE, (x: Pick) => At(o, x)), "failed";
      t := Machine(WithBranch(p, o, Rejected(error)), n + |next|, vars, log + [Row(next[o], FAILURE)]);
    } else {
      picks, t, error := [], Machine(p, n + |next|, vars, log), NoHandler(next[o]);
      SameBranch(p, o);
    }
  }

  /** From a fork with a branch `h` that alone succeeds: all branches start, another one fails, and then `h` still
      writes its row. */
  lemma ForkFailsThenLogs(env: Env, next: seq<Node>, h: nat, n: nat, vars: Vars, log: seq<LogRow>)
    returns (before: seq<Pick>, mid: Machine, error: string, after: seq<Pick>, end: Machine)
    requires h < |next| && |next| >= 2 && next[h].kind in HANDLED && FailsBut(env, n, n + 1 + h)
    ensures Execute(env, Machine(ForkOf(next), n, vars, log), before) == Some(mid)
    ensures Execute(env, mid, after) == Some(end) && end.log == mid.log + [Row(next[h], SUCCESS)]
    ensures error in Errors(mid.proc) && !Resolved(mid.proc) && !Resolved(end.proc) && mid.proc.Fork?
  {
    hide Step, Row, Errors, Resolved, TWICE, FailsBut;
    var m := Machine(ForkOf(next), n, vars, log);
    var p := Entered(env, next, n, vars);
    var o := if h == 0 then 1 else 0;
    var enter := EnterAll(env, next, n, vars, log);
    var fail;
    fail, mid, error := OtherFails(env, next, o, n + 1 + h, n, vars, log);
    ExecuteAppend(env, m, enter, fail);
    before := enter + fail;
    EnteredBranch(env, next, n, vars, o);
    EnteredBranch(env, next, n, vars, h);
    assert env.handler(n + h + 1, next[h], vars) == SUCCESS by { HandlerSucceeds(env, n, n + 1 + h, next[h], vars); }
    BranchOfWithBranch(p, o, Rejected(error), h);
    BranchOfWithBranch(p, o, Rejected(error), o);
    BranchErrors(mid.proc, o, error);
    var b := Machine(Executing(next[h], SUCCESS), mid.step, vars, mid.log);
    BranchLogs(env, next[h], mid.step, vars, mid.log);
    BranchRun(env, mid.proc, h, b, TWICE);
    after := Map(TWICE, (x: Pick) => At(h, x));
    end := Execute(env, mid, after).value;
    BranchOfWithBranch(mid.proc, h, Logged(next[h], SUCCESS), o);
    BranchErrors(end.proc, o, error);
  }

  lemma HandlerSucceeds(env: Env, n: nat, s: nat, node: Node, vars: Vars)
    requires FailsBut(env, n, s) && s > n
    ensures env.handler(s, node, vars) == SUCCESS
  {
  }

  /** The same with flows around the fork. */
  lemma FailThenLog(env: Env, p: Proc, next: seq<Node>, h: nat, n: nat, vars: Vars, log: seq<LogRow>)
    returns (before: seq<Pick>, mid: Machine, error: string, after: seq<Pick>, end: Machine)
    requires Leaf(p) == ForkOf(next)
    requires h < |next| && |next| >= 2 && next[h].kind in HANDLED && FailsBut(env, n, n + 1 + h)
    ensures Execute(env, Machine(p, n, vars, log), before) == Some(mid) && error in Errors(mid.proc)
    ensures Execute(env, mid, after) == Some(end) && |end.log| > |mid.log|
  {
    hide Step, Execute, Row, Errors, Resolved, FailsBut;
    var inner, last;
    before, inner, error, after, last := ForkFailsThenLogs(env, next, h, n, vars, log);
    LeafSame(p);
    LeafRun(env, p, Machine(ForkOf(next), n, vars, log), before);
    LeafRun(env, p, inner, after);
    mid, end := inner.(proc := WithLeaf(p, inner.proc)), last.(proc := WithLeaf(p, last.proc));
    LeafErrors(p, inner.proc);
  }

  // ---------- the exact condition ----------

  /** From FAILED on no row is written: for all handlers and conditions, in every history. */
  ghost predicate HaltsOnFailure(g: Graph)
    requires WellFormed(g)
  {
    forall handler, test, row, before, after ::
      Created(row) ==> NothingAfterFailed(World(g, handler, test), row, before, after)
  }

  ghost predicate NothingAfterFailed(env: Env, row: RunRow, before: seq<Event>, after: seq<Event>)
  {
    var s := History(env, Initial(row), before);
    s.Some? && s.value.row.status == FAILED ==>
      var t := History(env, s.value, after);
      t.Some? ==> t.value.machine.log == s.value.machine.log
  }

  /** Some run of the graph can come to a fork. */
  ghost predicate MayFork(g: Graph)
    requires WellFormed(g)
  {
    AcyclicIsLayered(g, Root(g));
    CanFork(g, ReachRanks(g, Root(g)), Root(g))
  }

  // ---------- where no run comes to a fork ----------

  ghost predicate Quieted(env: Env, s: System)
    requires Acyclic(env)
  {
    Ranked(env, s.machine.proc) && Calm(env, s.machine.proc)
  }

  lemma {:induction false} HistoryKeepsCalm(env: Env, s: System, evs: seq<Event>)
    requires Acyclic(env) && Intact(env.graph) && Quieted(env, s) && History(env, s, evs).Some?
    requires var t := FindTrigger(env.graph.nodes);
             t.Some? ==> Ranked(env, Ready(t.value)) && Calm(env, Ready(t.value))
    ensures Quieted(env, History(env, s, evs).value)
    decreases |evs|
  {
    hide Step, Resolved, Errors, FindTrigger, Acyclic, Calm, Ranked;
    if evs != [] {
      if evs[0].Move? {
        StepKeepsCalm(env, s.machine.proc, evs[0].pick, s.machine.step, s.machine.vars);
      }
      HistoryKeepsCalm(env, Perform(env, s, evs[0]).value, evs[1..]);
    }
  }

  lemma {:induction false} SilentFromNowOn(env: Env, s: System, evs: seq<Event>)
    requires Acyclic(env) && Intact(env.graph) && Quieted(env, s) && History(env, s, evs).Some?
    requires s.phase == Settled && Throws(s.machine.proc)
    ensures History(env, s, evs).value.machine.log == s.machine.log
    decreases |evs|
  {
    hide Step, Resolved, Throws, Errors, FindTrigger, Acyclic, Calm, Ranked;
    if evs != [] {
      if evs[0].Move? {
        var m := s.machine;
        ThrownIsSilent(env, m.proc, evs[0].pick, m.step, m.vars);
        StepKeepsCalm(env, m.proc, evs[0].pick, m.step, m.vars);
        assert m.log + [] == m.log;
      }
      SilentFromNowOn(env, Perform(env, s, evs[0]).value, evs[1..]);
    }
  }

  lemma ForklessGraphHalts(g: Graph, handler: Handler, test: Tester, row: RunRow, before: seq<Event>, after: seq<Event>)
    requires WellFormed(g) && !MayFork(g) && Created(row)
    ensures NothingAfterFailed(World(g, handler, test), row, before, after)
  {
    hide History, WellFormed, FindTrigger, GetNode, ReachRanks, Acyclic, CanFork, Throws, Errors, Root;
    var env := World(g, handler, test);
    var trigger := ValidatedGraphRuns(g, handler, test);
    var s := History(env, Initial(row), before);
    if s.Some? && s.value.row.status == FAILED && History(env, s.value, after).Some? {
      assert Intact(g);
      HistoryKeepsSound(env, Initial(row), before);
      HistoryKeepsCalm(env, Initial(row), before);
      SilentFromNowOn(env, s.value, after);
    }
  }

  // ---------- where some run does ----------

  /** Handlers that put the choices in force and from then on fail unless they are entered at step `s`. */
  function Planned(cs: seq<Choice>, s: nat): Handler
  {
    (n: nat, node: Node, vars: Vars) =>
      if 0 < n <= |cs| then Directing(cs[n - 1]) else if n == s then SUCCESS else FAILURE
  }

  /** Where a fork can be reached: a run in which handlers succeed up to the fork and after it one branch does,
      and a row of that branch after the failure of another. */
  lemma ForkGoesOn(g: Graph, row: RunRow) returns (handler: Handler, before: seq<Event>, after: seq<Event>)
    requires WellFormed(g) && MayFork(g) && Created(row)
    ensures !NothingAfterFailed(World(g, handler, DIRECTED), row, before, after)
  {
    hide WellFormed, Execute, FindTrigger, Root, ReachRanks, NothingAfterFailed, Errors, CanFork, Planned, FailsBut,
         Acyclic, GetNode, Leads, Obeys, HANDLED;
    var trigger := ValidatedGraphRuns(g, Planned([], 0), DIRECTED);
    var any := World(g, Planned([], 0), DIRECTED);
    var m := Machine(Ready(trigger), 0, row.context, []);
    var cs, picks, t, next := ReachFork(any, m);
    var h :| 0 <= h < |next| && next[h].kind in HANDLED;
    handler := Planned(cs, t.step + 1 + h);
    var env := World(g, handler, DIRECTED);
    assert Execute(env, m, picks) == Some(t) by { PlannedLeads(any, env, cs, t.step + 1 + h, m, picks, t); }
    assert FailsBut(env, t.step, t.step + 1 + h) by { PlannedFails(env, cs, t, any, m, picks, h); }
    var fail, mid, error, log, end := FailThenLog(env, t.proc, next, h, t.step, t.vars, t.log);
    ExecuteAppend(env, m, picks, fail);
    before, after := AsHistory(env, row, trigger, picks + fail, mid, error, log, end);
  }

  lemma PlannedLeads(any: Env, env: Env, cs: seq<Choice>, s: nat, m: Machine, picks: seq<Pick>, t: Machine)
    requires Leads(any, m, cs, picks, t) && m.step == 0
    requires env.graph == any.graph && env.ranks == any.ranks && env.test == DIRECTED && env.handler == Planned(cs, s)
    ensures Execute(env, m, picks) == Some(t)
  {
    hide Execute, Directing;
    assert Obeys(env, any.graph, any.ranks, m.step, cs);
  }

  lemma PlannedFails(env: Env, cs: seq<Choice>, t: Machine, any: Env, m: Machine, picks: seq<Pick>, h: nat)
    requires Leads(any, m, cs, picks, t) && m.step == 0 && env.handler == Planned(cs, t.step + 1 + h)
    ensures FailsBut(env, t.step, t.step + 1 + h)
  {
  }

  /** A schedule to a rejected fork and a longer one, with the runner's writes in between. */
  lemma AsHistory(env: Env, row: RunRow, trigger: Node, picks: seq<Pick>, mid: Machine, error: string,
                  log: seq<Pick>, end: Machine)
    returns (before: seq<Event>, after: seq<Event>)
    requires FindTrigger(env.graph.nodes) == Some(trigger) && Created(row) && error in Errors(mid.proc)
    requires Execute(env, Machine(Ready(trigger), 0, row.context, []), picks) == Some(mid)
    requires Execute(env, mid, log) == Some(end) && |end.log| > |mid.log|
    ensures !NothingAfterFailed(env, row, before, after)
  {
    hide History, Execute, FindTrigger, Errors;
    var s := Perform(env, Initial(row), Start).value;
    MovesFollow(env, s, picks);
    var t := History(env, s, Moves(picks)).value;
    var u := Perform(env, t, Fail(error)).value;
    MovesFollow(env, u, log);
    before, after := [Start] + Moves(picks) + [Fail(error)], Moves(log);
    OneEvent(env, Initial(row), Start);
    OneEvent(env, t, Fail(error));
    HistoryAppend(env, Initial(row), [Start], Moves(picks));
    HistoryAppend(env, Initial(row), [Start] + Moves(picks), [Fail(error)]);
  }

  /** The promise that `ok: false` halts the run, exactly: on a validated graph it holds, for all handlers,
      conditions and histories, if and only if no run can come to a fork. */
  lemma FailureHaltsIffNoFork(g: Graph)
    requires WellFormed(g)
    ensures HaltsOnFailure(g) <==> !MayFork(g)
  {
    hide WellFormed, MayFork, NothingAfterFailed;
    if MayFork(g) {
      var row := RunRow("", 1, Some(g), PENDING, map[], None, None, false);
      var handler, before, after := ForkGoesOn(g, row);
      assert !NothingAfterFailed(World(g, handler, DIRECTED), row, before, after);
    } else {
      forall handler, test, row, before, after | Created(row)
        ensures NothingAfterFailed(World(g, handler, test), row, before, after)
      {
        ForklessGraphHalts(g, handler, test, row, before, after);
      }
    }
  }

  // ---------- when all node types have handlers ----------

  ghost predicate AllHandled(g: Graph)
  {
    forall n :: n in g.nodes ==> n.kind in HANDLED
  }

  lemma {:induction false} HandledPasses(g: Graph, ranks: Ranks, id: string)
    requires Layered(g, ranks) && Intact(g) && AllHandled(g) && id in ranks && GetNode(g, id).Some?
    ensures Passes(g, ranks, id)
    decreases ranks[id]
  {
    hide GetNode, HANDLED;
    forall e | e in g.edges && e.source == id
      ensures Passes(g, ranks, e.target)
    {
      HandledPasses(g, ranks, e.target);
    }
  }

  lemma {:induction false} ForkIsOnPath(g: Graph, ranks: Ranks, id: string) returns (p: Path, v: Node)
    requires Layered(g, ranks) && Intact(g) && id in ranks && CanFork(g, ranks, id)
    ensures v in g.nodes && Splits(g, v) && IsPath(g, id, p) && PathEnd(g, id, p) == v.id
    decreases ranks[id]
  {
    hide Splits, Passes, GetNode;
    if Splits(g, GetNode(g, id).value) {
      p, v := [], GetNode(g, id).value;
    } else {
      var k :| LeadsToFork(g, ranks, id, k);
      var rest;
      rest, v := ForkIsOnPath(g, ranks, g.edges[k].target);
      p := [k] + rest;
      assert p[1..] == rest;
    }
  }

  lemma {:induction false} PathLeadsToFork(g: Graph, ranks: Ranks, id: string, p: Path, v: Node)
    requires Layered(g, ranks) && Intact(g) && AllHandled(g) && id in ranks && GetNode(g, id).Some?
    requires v in g.nodes && Splits(g, v) && IsPath(g, id, p) && PathEnd(g, id, p) == v.id
    ensures CanFork(g, ranks, id)
    decreases |p|
  {
    hide Splits, Passes, GetNode;
    if p == [] {
      assert v.kind == PARALLEL by { SplitIsParallel(g, v); }
    } else {
      var k := p[0];
      assert g.edges[k] in g.edges;
      PathLeadsToFork(g, ranks, g.edges[k].target, p[1..], v);
      forall j | 0 <= j < k && g.edges[j].source == id
        ensures Passes(g, ranks, g.edges[j].target)
      {
        assert g.edges[j] in g.edges;
        HandledPasses(g, ranks, g.edges[j].target);
      }
      assert LeadsToFork(g, ranks, id, k);
    }
  }

  lemma SplitsIffHandled(g: Graph, v: Node)
    requires Intact(g) && AllHandled(g)
    ensures Splits(g, v) <==> v.kind == PARALLEL && |OutgoingEdges(g, v.id)| >= 2
  {
    if |OutgoingEdges(g, v.id)| >= 2 {
      var e := OutgoingEdges(g, v.id)[0];
      OutgoingMember(g, v.id, e);
      assert HasHandler(g, e.target);
    }
  }

  /** Where all node types have handlers: a run can come to a fork if and only if some path from the trigger, which
      leaves no END, reaches a PARALLEL node with two or more outgoing edges. */
  lemma HandledGraphMayFork(g: Graph)
    requires WellFormed(g) && AllHandled(g)
    ensures MayFork(g) <==>
              exists v :: Visitable(g, Root(g), v) && v.kind == PARALLEL && |OutgoingEdges(g, v.id)| >= 2
  {
    var trigger := ValidatedGraphRuns(g, Planned([], 0), DIRECTED);
    hide WellFormed, Root, ReachRanks, CanFork, Splits, OutgoingEdges, GetNode, HANDLED;
    AcyclicIsLayeredFromRoot(g);
    var ranks := ReachRanks(g, Root(g));
    assert Intact(g);
    if MayFork(g) {
      var p, v := ForkIsOnPath(g, ranks, Root(g));
      SplitsIffHandled(g, v);
      assert Visitable(g, Root(g), v);
    }
    if v: Node :| Visitable(g, Root(g), v) && v.kind == PARALLEL && |OutgoingEdges(g, v.id)| >= 2 {
      SplitsIffHandled(g, v);
      var p :| IsPath(g, Root(g), p) && PathEnd(g, Root(g), p) == v.id;
      assert GetNode(g, Root(g)) == Some(trigger);
      PathLeadsToFork(g, ranks, Root(g), p, v);
    }
  }

  lemma AcyclicIsLayeredFromRoot(g: Graph)
    requires WellFormed(g)
    ensures Layered(g, ReachRanks(g, Root(g))) && Root(g) in ReachRanks(g, Root(g))
  {
    AcyclicIsLayered(g, Root(g));
  }
}
