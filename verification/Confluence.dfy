/** Every interleaving of independent branches gives what running them in declaration order gives. */
module Confluence {
  import opened Collections
  import opened WorkflowGraphs
  import opened WorkflowWalk
  import opened WorkflowMachine
  import opened BranchFootprints
  import opened ProcessMeaning
  import opened Interference

  // ---------- one step preserves what is left to do ----------

  /** The same variables, rows, step count and verdict, when started with `vars`; rows may be permuted. */
  ghost predicate SameRun(a: Outcome, b: Outcome, vars: Vars)
  {
    && a.visits == b.visits
    && multiset(a.log) == multiset(b.log)
    && Merge(vars, a.writes) == Merge(vars, b.writes)
    && (a.failure.Some? <==> b.failure.Some?)
  }

  function Done(e: Effect): Outcome
  {
    Outcome(e.ticks, e.writes, e.rows, None)
  }

  lemma SameThen(a: Outcome, b: Outcome, c: Outcome, vars: Vars)
    requires SameRun(a, b, vars)
    ensures SameRun(a.Then(c), b.Then(c), vars)
  {
    MergeAppend(vars, a.writes, c.writes);
    MergeAppend(vars, b.writes, c.writes);
  }

  /** The claim proved for each kind of step. */
  ghost predicate Preserved(env: Env, p: Proc, e: Effect, n: nat, vars: Vars)
    requires Acyclic(env) && Ranked(env, p) && Ranked(env, e.proc)
  {
    SameRun(Eval(env, p, n, vars), Done(e).Then(Eval(env, e.proc, n + e.ticks, Merge(vars, e.writes))), vars)
  }

  /** The step and then what is left to do are just what was left to do before. */
  ghost predicate Exact(env: Env, p: Proc, e: Effect, n: nat, vars: Vars)
    requires Acyclic(env) && Ranked(env, p) && Ranked(env, e.proc)
  {
    Eval(env, p, n, vars) == Done(e).Then(Eval(env, e.proc, n + e.ticks, Merge(vars, e.writes)))
  }

  /** The parts of a walk put together one step at a time. */
  lemma LeafPreserves(env: Env, p: Proc, pick: Pick, n: nat, vars: Vars)
    requires Acyclic(env) && Ranked(env, p) && IsLeaf(p) && Step(env, p, pick, n, vars).Some?
    ensures var e := Step(env, p, pick, n, vars).value;
            Ranked(env, e.proc) && Exact(env, p, e, n, vars)
  {
    hide Conclude, Resume, Outcome.Then, Acyclic;
    StepKeepsRanked(env, p, pick, n, vars);
    match p
    case Ready(node) => EnterPreserves(env, node, n, vars);
    case Executing(node, res) =>
      Regrouped(0, [res.setVars], Row(node, res), Conclude(env, node, res, n, vars + res.setVars));
      assert Merge(vars, [res.setVars]) == vars + res.setVars;
    case Merged(node, res) =>
    case Logged(node, res) =>
      ResumeMeansConclude(env, node, res, n, vars);
      NothingFirst(Eval(env, Resume(env, node, res, vars), n, vars));
  }

  lemma EnterPreserves(env: Env, node: Node, n: nat, vars: Vars)
    requires Acyclic(env) && Ranked(env, Ready(node))
    ensures var e := Step(env, Ready(node), Here, n, vars).value;
            Ranked(env, e.proc) && Exact(env, Ready(node), e, n, vars)
  {
    hide Conclude;
    if node.kind in HANDLED {
      var res := env.handler(n + 1, node, vars);
      var o := Conclude(env, node, res, n + 1, vars + res.setVars);
      Regrouped(1, [res.setVars], Row(node, res), o);
      assert Eval(env, Executing(node, res), n + 1, vars) == Outcome(0, [res.setVars], [Row(node, res)], None).Then(o);
    } else {
      assert Eval(env, Rejected(NoHandler(node)), n + 1, vars) == Outcome(0, [], [], Some(NoHandler(node)));
    }
  }

  /** A visit in one piece, or its parts one after the other. */
  lemma Regrouped(ticks: nat, writes: seq<Vars>, row: LogRow, o: Outcome)
    ensures Outcome(ticks, writes, [row], None).Then(o) ==
            Outcome(ticks, [], [], None).Then(Outcome(0, writes, [row], None).Then(o))
    ensures Outcome(0, writes, [row], None).Then(o) ==
            Outcome(0, writes, [], None).Then(Outcome(0, [], [row], None).Then(o))
  {
    assert [] + (writes + o.writes) == writes + o.writes && [] + o.writes == o.writes;
    assert [] + ([row] + o.log) == [row] + o.log;
  }

  lemma FlowAdvancePreserves(env: Env, p: Proc, n: nat, vars: Vars)
    requires Acyclic(env) && Ranked(env, p) && p.Flow? && Resolved(p.cur) && p.rest != []
    ensures var e := Step(env, p, Here, n, vars).value;
            Ranked(env, e.proc) && Exact(env, p, e, n, vars)
  {
    hide Eval, WalkAll, Resolved;
    StepKeepsRanked(env, p, Here, n, vars);
    ResolvedIsDone(env, p.cur, n, vars);
    FlowUnfold(env, p, n, vars);
    FlowStart(env, p.rest, n, vars);
    NothingFirst(WalkAll(env, false, p.rest, n, vars));
  }

  lemma FlowStart(env: Env, rest: seq<Node>, n: nat, vars: Vars)
    requires Acyclic(env) && rest != [] && AllRanked(env, rest) && Listed(env, rest)
    ensures var q := Flow(Ready(rest[0]), rest[1..]);
            Ranked(env, q) && Eval(env, q, n, vars) == WalkAll(env, false, rest, n, vars)
  {
    hide Walk, WalkAll, Outcome.Then, Merge;
    assert rest[0] in rest;
    FlowRanked(env, Ready(rest[0]), rest[1..]);
    FlowUnfold(env, Flow(Ready(rest[0]), rest[1..]), n, vars);
    WalkAllUnfold(env, false, rest, n, vars);
  }

  /** What a flow or a fork amounts to when its first part amounts to `o` and the rest to `others`. */
  function Before(fork: bool, o: Outcome, others: Outcome): Outcome
  {
    if o.failure.Some? && !fork then o else o.Then(others)
  }

  /** A step of the first part carries over to the whole, and the rest starts in the same context. */
  lemma SameBefore(fork: bool, o: Outcome, done: Outcome, later: Outcome, others: Outcome, vars: Vars)
    requires SameRun(o, done.Then(later), vars) && done.failure.None?
    ensures SameRun(Before(fork, o, others), done.Then(Before(fork, later, others)), vars)
    ensures o.visits == done.visits + later.visits
    ensures Merge(vars, o.writes) == Merge(Merge(vars, done.writes), later.writes)
  {
    MergeAppend(vars, done.writes, later.writes);
    if o.failure.None? || fork {
      SameThen(o, done.Then(later), others, vars);
      BothAssociative(done, later, others);
    }
  }

  lemma FlowStepPreserves(env: Env, p: Proc, e: Effect, n: nat, vars: Vars)
    requires Acyclic(env) && Ranked(env, p) && p.Flow?
    requires Ranked(env, e.proc) && Preserved(env, p.cur, e, n, vars)
    ensures Preserved(env, p, e.(proc := Flow(e.proc, p.rest)), n, vars)
  {
    hide Eval, WalkAll, Merge, Outcome.Then;
    var m, w := n + e.ticks, Merge(vars, e.writes);
    var o, later := Eval(env, p.cur, n, vars), Eval(env, e.proc, m, w);
    var others := WalkAll(env, false, p.rest, n + o.visits, Merge(vars, o.writes));
    SameBefore(false, o, Done(e), later, others, vars);
    FlowUnfold(env, p, n, vars);
    FlowUnfold(env, Flow(e.proc, p.rest), m, w);
  }

  lemma HeadStepPreserves(env: Env, p: Proc, e: Effect, n: nat, vars: Vars)
    requires Acyclic(env) && Ranked(env, p) && p.Fork?
    requires Ranked(env, e.proc) && Preserved(env, p.head, e, n, vars)
    ensures Preserved(env, p, e.(proc := Fork(e.proc, p.tail)), n, vars)
  {
    hide Eval, Merge, Outcome.Then;
    var m, w := n + e.ticks, Merge(vars, e.writes);
    var o, later := Eval(env, p.head, n, vars), Eval(env, e.proc, m, w);
    var others := Eval(env, p.tail, n + o.visits, Merge(vars, o.writes));
    SameBefore(true, o, Done(e), later, others, vars);
    ForkUnfold(env, p, n, vars);
    ForkUnfold(env, Fork(e.proc, p.tail), m, w);
  }

  /** A step of a later branch can be exchanged with everything an earlier branch still has to do. */
  lemma SameBehind(first: Outcome, a: Outcome, done: Outcome, b: Outcome, vars: Vars)
    requires SameRun(a, done.Then(b), Merge(vars, first.writes)) && done.failure.None?
    requires Merge(Merge(vars, first.writes), done.writes) == Merge(Merge(vars, done.writes), first.writes)
    ensures SameRun(first.Then(a), done.Then(first.Then(b)), vars)
  {
    var v := Merge(vars, first.writes);
    MergeAppend(vars, first.writes, a.writes);
    MergeAppend(v, done.writes, b.writes);
    MergeAppend(vars, done.writes, first.writes + b.writes);
    MergeAppend(Merge(vars, done.writes), first.writes, b.writes);
  }

  lemma TailStepPreserves(env: Env, fp: Footprint, p: Proc, inner: Pick, n: nat, vars: Vars)
    requires Acyclic(env) && Confined(env, fp) && Independent(env, fp)
    requires p.Fork? && Ranked(env, p) && Separated(env, fp, p) && Step(env, p.tail, inner, n, vars).Some?
    requires var o := Eval(env, p.head, n, vars);
             var e := Step(env, p.tail, inner, n, vars);
             && e == Step(env, p.tail, inner, n + o.visits, Merge(vars, o.writes))
             && Ranked(env, e.value.proc)
             && Preserved(env, p.tail, e.value, n + o.visits, Merge(vars, o.writes))
    ensures var e := Step(env, p.tail, inner, n, vars).value;
            Preserved(env, p, e.(proc := Fork(p.head, e.proc)), n, vars)
  {
    hide Eval, Step, Merge, Confined, Outcome.Then;
    var e := Step(env, p.tail, inner, n, vars).value;
    var o := Eval(env, p.head, n, vars);
    var m, w := n + e.ticks, Merge(vars, e.writes);
    StepStaysInside(env, fp, p.tail, inner, n, vars);
    EvalWrites(env, fp, p.head, n, vars);
    MergeKeepsAgreement(vars, e.writes, Writes(fp, p.tail), Reads(fp, p.head));
    EvalFrame(env, fp, p.head, n, m, vars, w);
    MergeCommutes(vars, o.writes, e.writes, Writes(fp, p.head), Writes(fp, p.tail));
    ForkUnfold(env, p, n, vars);
    ForkUnfold(env, Fork(p.head, e.proc), m, w);
    SameBehind(o, Eval(env, p.tail, n + o.visits, Merge(vars, o.writes)), Done(e),
               Eval(env, e.proc, m + o.visits, Merge(w, o.writes)), vars);
  }

  /** What a later branch does is not affected by what an earlier branch still has to do. */
  lemma TailStepUnaffected(env: Env, fp: Footprint, p: Proc, inner: Pick, n: nat, vars: Vars)
    requires Acyclic(env) && Confined(env, fp) && p.Fork? && Ranked(env, p) && Separated(env, fp, p)
    ensures var o := Eval(env, p.head, n, vars);
            Step(env, p.tail, inner, n, vars) == Step(env, p.tail, inner, n + o.visits, Merge(vars, o.writes))
  {
    hide Eval, Step, Merge, Confined;
    var o := Eval(env, p.head, n, vars);
    EvalWrites(env, fp, p.head, n, vars);
    MergeKeepsAgreement(vars, o.writes, Writes(fp, p.head), Reads(fp, p.tail));
    StepFrame(env, fp, p.tail, inner, n, n + o.visits, vars, Merge(vars, o.writes));
  }

  /** Whichever walk takes the next step, what the run amounts to in the end stays the same. */
  lemma {:induction false} StepPreserves(env: Env, fp: Footprint, p: Proc, pick: Pick, n: nat, vars: Vars)
    requires Acyclic(env) && Confined(env, fp) && Independent(env, fp)
    requires Ranked(env, p) && Separated(env, fp, p) && Step(env, p, pick, n, vars).Some?
    ensures var e := Step(env, p, pick, n, vars).value;
            Ranked(env, e.proc) && Preserved(env, p, e, n, vars)
    decreases p
  {
    hide Eval, Confined, Independent, Merge, Next, Matching;
    StepKeepsRanked(env, p, pick, n, vars);
    if IsLeaf(p) {
      LeafPreserves(env, p, pick, n, vars);
    } else if p.Flow? && Resolved(p.cur) && p.rest != [] {
      FlowAdvancePreserves(env, p, n, vars);
    } else if p.Flow? {
      StepPreserves(env, fp, p.cur, pick, n, vars);
      FlowStepPreserves(env, p, Step(env, p.cur, pick, n, vars).value, n, vars);
    } else if pick.InHead? {
      StepPreserves(env, fp, p.head, pick.pick, n, vars);
      HeadStepPreserves(env, p, Step(env, p.head, pick.pick, n, vars).value, n, vars);
    } else {
      var o := Eval(env, p.head, n, vars);
      TailStepUnaffected(env, fp, p, pick.pick, n, vars);
      StepPreserves(env, fp, p.tail, pick.pick, n + o.visits, Merge(vars, o.writes));
      TailStepPreserves(env, fp, p, pick.pick, n, vars);
    }
  }

  // ---------- whole schedules ----------

  /** What a machine amounts to when it is completed in declaration order: its final step counter,
      variables, rows (as a multiset) and verdict. */
  ghost predicate SameEnd(env: Env, m: Machine, t: Machine)
    requires Acyclic(env) && Ranked(env, m.proc) && Ranked(env, t.proc)
  {
    var a, b := Eval(env, m.proc, m.step, m.vars), Eval(env, t.proc, t.step, t.vars);
    && m.step + a.visits == t.step + b.visits
    && multiset(m.log) + multiset(a.log) == multiset(t.log) + multiset(b.log)
    && Merge(m.vars, a.writes) == Merge(t.vars, b.writes)
    && (a.failure.Some? <==> b.failure.Some?)
  }

  lemma {:induction false} SchedulePreserves(env: Env, fp: Footprint, m: Machine, picks: seq<Pick>)
    requires Acyclic(env) && Confined(env, fp) && Independent(env, fp)
    requires Ranked(env, m.proc) && Separated(env, fp, m.proc) && Execute(env, m, picks).Some?
    ensures var t := Execute(env, m, picks).value;
            Ranked(env, t.proc) && SameEnd(env, m, t)
    decreases |picks|
  {
    hide Eval, Step, Confined, Independent, Separated, Merge;
    if picks != [] {
      StepPreserves(env, fp, m.proc, picks[0], m.step, m.vars);
      StepStaysInside(env, fp, m.proc, picks[0], m.step, m.vars);
      var e := Step(env, m.proc, picks[0], m.step, m.vars).value;
      var b := Eval(env, e.proc, m.step + e.ticks, Merge(m.vars, e.writes));
      MergeAppend(m.vars, e.writes, b.writes);
      assert multiset(e.rows + b.log) == multiset(e.rows) + multiset(b.log);
      assert multiset(m.log + e.rows) == multiset(m.log) + multiset(e.rows);
      assert SameEnd(env, m, Apply(m, e));
      SchedulePreserves(env, fp, Apply(m, e), picks[1..]);
    }
  }

  /** Confluence: when the branches of every PARALLEL node are independent, every schedule of a run
      that is carried through to the end leaves the same variables, the same rows, the same step count
      and the same verdict as walking the branches one after the other in declaration order. */
  lemma EveryScheduleAgrees(env: Env, fp: Footprint, node: Node, vars: Vars, picks: seq<Pick>)
    requires Acyclic(env) && Confined(env, fp) && Independent(env, fp)
    requires node.id in env.ranks && node in env.graph.nodes
    requires var t := Execute(env, Machine(Ready(node), 0, vars, []), picks);
             t.Some? && !CanStep(env, t.value.proc, t.value.step, t.value.vars)
    ensures var t := Execute(env, Machine(Ready(node), 0, vars, []), picks).value;
            var o := Walk(env, node, 0, vars);
            && t.vars == Merge(vars, o.writes)
            && multiset(t.log) == multiset(o.log)
            && t.step == o.visits
            && (o.failure.None? <==> Resolved(t.proc))
            && (o.failure.Some? <==> Throws(t.proc))
  {
    var m := Machine(Ready(node), 0, vars, []);
    var t := Execute(env, m, picks).value;
    SchedulePreserves(env, fp, m, picks);
    StillIsDone(env, t.proc, t.step, t.vars);
    hide Walk, Execute;
    assert multiset(m.log) + multiset(Walk(env, node, 0, vars).log) == multiset(Walk(env, node, 0, vars).log);
  }
}
