/** Walking the branches in declaration order is one of the schedules. */
module DeclarationOrder {
  import opened Collections
  import opened WorkflowGraphs
  import opened WorkflowWalk
  import opened WorkflowRunner
  import opened WorkflowMachine
  import opened ProcessMeaning
  import opened Confluence

  // ---------- processes that have come to rest ----------

  /** Whether a walk can take a step does not depend on the context. */
  lemma {:induction false} StepAnywhere(env: Env, p: Proc, pick: Pick, n: nat, vars: Vars, m: nat, w: Vars)
    ensures Step(env, p, pick, n, vars).Some? <==> Step(env, p, pick, m, w).Some?
  {
    match p
    case Flow(cur, _) => StepAnywhere(env, cur, pick, n, vars, m, w);
    case Fork(head, tail) =>
      if pick.InHead? {
        StepAnywhere(env, head, pick.pick, n, vars, m, w);
      } else if pick.InTail? {
        StepAnywhere(env, tail, pick.pick, n, vars, m, w);
      }
    case _ =>
  }

  lemma StillAnywhere(env: Env, p: Proc, n: nat, vars: Vars, m: nat, w: Vars)
    requires !CanStep(env, p, n, vars)
    ensures !CanStep(env, p, m, w)
  {
    forall pick ensures Step(env, p, pick, m, w).None? {
      StepAnywhere(env, p, pick, n, vars, m, w);
    }
  }

  lemma StillParts(env: Env, p: Proc, n: nat, vars: Vars)
    requires !CanStep(env, p, n, vars)
    ensures p.Flow? && !(Resolved(p.cur) && p.rest != []) ==> !CanStep(env, p.cur, n, vars)
    ensures p.Fork? ==> !CanStep(env, p.head, n, vars) && !CanStep(env, p.tail, n, vars)
  {
    if p.Fork? {
      forall pick ensures Step(env, p.head, pick, n, vars).None? && Step(env, p.tail, pick, n, vars).None? {
        assert Step(env, p, InHead(pick), n, vars).None? && Step(env, p, InTail(pick), n, vars).None?;
      }
    }
    if p.Flow? && !(Resolved(p.cur) && p.rest != []) {
      forall pick ensures Step(env, p.cur, pick, n, vars).None? {
        assert Step(env, p, pick, n, vars).None?;
      }
    }
  }

  /** What a process at rest amounts to is its verdict, in every context; its error is one it has rejected with. */
  lemma {:induction false} StillVerdict(env: Env, p: Proc, n: nat, vars: Vars, m: nat, w: Vars)
    requires Acyclic(env) && Ranked(env, p) && !CanStep(env, p, n, vars)
    ensures var o := Eval(env, p, n, vars);
            && o == Outcome(0, [], [], o.failure) && Eval(env, p, m, w) == o
            && (o.failure.Some? ==> o.failure.value in Errors(p))
  {
    hide Eval, Walk, Conclude, WalkAll, CanStep, Resolved, Throws, Step, Acyclic;
    StillIsDone(env, p, n, vars);
    StillParts(env, p, n, vars);
    match p
    case Rejected(error) =>
      RejectedLeft(env, error, n, vars);
      RejectedLeft(env, error, m, w);
    case Flow(cur, rest) =>
      if Resolved(p) {
        ResolvedIsDone(env, p, n, vars);
        ResolvedIsDone(env, p, m, w);
      } else {
        FlowAtRest(env, p, n, vars);
        StillVerdict(env, cur, n, vars, m, w);
        FlowUnfold(env, p, n, vars);
        FlowUnfold(env, p, m, w);
      }
    case Fork(head, tail) =>
      StillVerdict(env, head, n, vars, m, w);
      StillVerdict(env, tail, n, vars, m, w);
      ForkAtRest(env, p, n, vars);
      ForkAtRest(env, p, m, w);
    case Finished =>
      NothingLeft(env, n, vars);
      NothingLeft(env, m, w);
    case _ => LeafSteps(env, p, n, vars);
  }

  lemma ForkAtRest(env: Env, p: Proc, n: nat, vars: Vars)
    requires Acyclic(env) && Ranked(env, p) && p.Fork?
    requires var o := Eval(env, p.head, n, vars); o == Outcome(0, [], [], o.failure)
    ensures Eval(env, p, n, vars) == Eval(env, p.head, n, vars).Then(Eval(env, p.tail, n, vars))
  {
    ForkUnfold(env, p, n, vars);
  }

  lemma LeafSteps(env: Env, p: Proc, n: nat, vars: Vars)
    requires IsLeaf(p)
    ensures CanStep(env, p, n, vars)
  {
    assert Step(env, p, Here, n, vars).Some?;
  }

  lemma FlowCanAdvance(env: Env, p: Proc, n: nat, vars: Vars)
    ensures p.Flow? && Resolved(p.cur) && p.rest != [] ==> CanStep(env, p, n, vars)
  {
    assert p.Flow? && Resolved(p.cur) && p.rest != [] ==> Step(env, p, Here, n, vars).Some?;
  }

  /** A flow at rest that has not resolved is at rest in its first part, which has rejected. */
  lemma FlowAtRest(env: Env, p: Proc, n: nat, vars: Vars)
    requires Acyclic(env) && Ranked(env, p) && p.Flow? && !CanStep(env, p, n, vars) && !Resolved(p)
    ensures !CanStep(env, p.cur, n, vars) && Eval(env, p.cur, n, vars).failure.Some?
  {
    FlowCanAdvance(env, p, n, vars);
    StillParts(env, p, n, vars);
    StillIsDone(env, p.cur, n, vars);
  }

  // ---------- the first step in declaration order ----------

  ghost predicate AtRest(env: Env, p: Proc)
  {
    !CanStep(env, p, 0, map[])
  }

  predicate Untouched(p: Proc)
  {
    match p
    case Ready(_) => true
    case Fork(head, tail) => Untouched(head) && Untouched(tail)
    case Finished => true
    case _ => false
  }

  /** Each branch has come to rest before the next one starts, and the node whose results were merged last is the
      current one. */
  ghost predicate InOrder(env: Env, p: Proc, current: Option<string>)
  {
    match p
    case Merged(node, _) => current == Some(node.id)
    case Flow(cur, _) => InOrder(env, cur, current)
    case Fork(head, tail) =>
      if AtRest(env, head) then InOrder(env, tail, current) else InOrder(env, head, current) && Untouched(tail)
    case _ => true
  }

  /** The step is the next one of the walk in declaration order. */
  ghost predicate Declared(env: Env, p: Proc, e: Effect, n: nat, vars: Vars, current: Option<string>)
    requires Acyclic(env) && Ranked(env, p) && Ranked(env, e.proc)
  {
    && Exact(env, p, e, n, vars) && InOrder(env, e.proc, Mark(current, e))
    && LastNode(Mark(current, e), Eval(env, e.proc, n + e.ticks, Merge(vars, e.writes)).log)
       == LastNode(current, Eval(env, p, n, vars).log)
  }

  lemma {:induction false} UntouchedInOrder(env: Env, p: Proc, current: Option<string>)
    requires Untouched(p)
    ensures InOrder(env, p, current)
  {
    match p
    case Fork(head, tail) =>
      UntouchedInOrder(env, head, current);
      UntouchedInOrder(env, tail, current);
    case _ =>
  }

  lemma {:induction false} ForkOfUntouched(nodes: seq<Node>)
    ensures Untouched(ForkOf(nodes))
  {
    if nodes != [] {
      ForkOfUntouched(nodes[1..]);
    }
  }

  lemma ResumeInOrder(env: Env, node: Node, res: NodeResult, vars: Vars, current: Option<string>)
    ensures InOrder(env, Resume(env, node, res, vars), current)
  {
    hide Next, Matching;
    ForkOfUntouched(Next(env, node.id, vars));
    UntouchedInOrder(env, ForkOf(Next(env, node.id, vars)), current);
  }

  lemma LeafDeclared(env: Env, p: Proc, n: nat, vars: Vars, current: Option<string>)
    requires Acyclic(env) && Ranked(env, p) && IsLeaf(p) && InOrder(env, p, current)
    ensures Step(env, p, Here, n, vars).Some?
    ensures var e := Step(env, p, Here, n, vars).value;
            Ranked(env, e.proc) && Declared(env, p, e, n, vars, current)
  {
    hide Conclude, Resume, Acyclic, Walk;
    LeafPreserves(env, p, Here, n, vars);
    match p
    case Ready(node) =>
    case Executing(node, res) =>
    case Merged(node, res) =>
    case Logged(node, res) => ResumeInOrder(env, node, res, vars, current);
  }

  lemma LastOfMore(c: Option<string>, d: Option<string>, a: seq<LogRow>, b: seq<LogRow>, more: seq<LogRow>)
    requires LastNode(c, a) == LastNode(d, b)
    ensures LastNode(c, a + more) == LastNode(d, b + more)
  {
    if more == [] {
      assert a + more == a && b + more == b;
    }
  }

  /** The first part of a flow or a fork takes its step, and the rest follows as before. */
  lemma ExactBefore(fork: bool, o: Outcome, done: Outcome, later: Outcome, others: Outcome, vars: Vars)
    requires o == done.Then(later) && done.failure.None?
    ensures Before(fork, o, others) == done.Then(Before(fork, later, others))
    ensures Merge(vars, o.writes) == Merge(Merge(vars, done.writes), later.writes)
  {
    BothAssociative(done, later, others);
    MergeAppend(vars, done.writes, later.writes);
  }

  lemma FlowDeclared(env: Env, p: Proc, e: Effect, n: nat, vars: Vars, current: Option<string>)
    requires Acyclic(env) && Ranked(env, p) && p.Flow? && Ranked(env, e.proc)
    requires Declared(env, p.cur, e, n, vars, current)
    ensures Ranked(env, Flow(e.proc, p.rest))
    ensures Declared(env, p, e.(proc := Flow(e.proc, p.rest)), n, vars, current)
  {
    hide Eval, WalkAll, Merge, LastNode, Acyclic;
    var m, w := n + e.ticks, Merge(vars, e.writes);
    var o, later := Eval(env, p.cur, n, vars), Eval(env, e.proc, m, w);
    var others := WalkAll(env, false, p.rest, n + o.visits, Merge(vars, o.writes));
    ExactBefore(false, o, Done(e), later, others, vars);
    FlowUnfold(env, p, n, vars);
    FlowUnfold(env, Flow(e.proc, p.rest), m, w);
    LastOfMore(Mark(current, e), current, later.log, o.log, others.log);
  }

  lemma HeadDeclared(env: Env, p: Proc, e: Effect, n: nat, vars: Vars, current: Option<string>)
    requires Acyclic(env) && Ranked(env, p) && p.Fork? && Untouched(p.tail) && Ranked(env, e.proc)
    requires Declared(env, p.head, e, n, vars, current)
    ensures Ranked(env, Fork(e.proc, p.tail))
    ensures Declared(env, p, e.(proc := Fork(e.proc, p.tail)), n, vars, current)
  {
    hide Eval, Merge, LastNode, Acyclic, AtRest;
    var m, w := n + e.ticks, Merge(vars, e.writes);
    var o, later := Eval(env, p.head, n, vars), Eval(env, e.proc, m, w);
    var others := Eval(env, p.tail, n + o.visits, Merge(vars, o.writes));
    ExactBefore(true, o, Done(e), later, others, vars);
    ForkUnfold(env, p, n, vars);
    ForkUnfold(env, Fork(e.proc, p.tail), m, w);
    LastOfMore(Mark(current, e), current, later.log, o.log, others.log);
    UntouchedInOrder(env, p.tail, Mark(current, e));
  }

  lemma EmptyFirst(o: Outcome, done: Outcome, later: Outcome)
    requires o == Outcome(0, [], [], o.failure) && done.failure.None?
    ensures o.Then(done.Then(later)) == done.Then(o.Then(later)) && o.Then(later).log == later.log
  {
    assert [] + (done.writes + later.writes) == done.writes + ([] + later.writes);
    assert [] + (done.log + later.log) == done.log + ([] + later.log);
    assert [] + later.log == later.log;
  }

  lemma TailDeclared(env: Env, p: Proc, e: Effect, n: nat, vars: Vars, current: Option<string>)
    requires Acyclic(env) && Ranked(env, p) && p.Fork? && AtRest(env, p.head) && Ranked(env, e.proc)
    requires Declared(env, p.tail, e, n, vars, current)
    ensures Ranked(env, Fork(p.head, e.proc))
    ensures Declared(env, p, e.(proc := Fork(p.head, e.proc)), n, vars, current)
  {
    hide Eval, Merge, LastNode, Acyclic, CanStep;
    var m, w := n + e.ticks, Merge(vars, e.writes);
    StillVerdict(env, p.head, 0, map[], n, vars);
    StillVerdict(env, p.head, 0, map[], m, w);
    ForkAtRest(env, p, n, vars);
    ForkAtRest(env, Fork(p.head, e.proc), m, w);
    EmptyFirst(Eval(env, p.head, n, vars), Done(e), Eval(env, e.proc, m, w));
    assert [] + Eval(env, p.tail, n, vars).log == Eval(env, p.tail, n, vars).log;
  }

  /** A process that is not at rest can take the next step of the walk in declaration order. */
  lemma {:induction false} NextStep(env: Env, p: Proc, n: nat, vars: Vars, current: Option<string>) returns (pick: Pick)
    requires Acyclic(env) && Ranked(env, p) && InOrder(env, p, current) && CanStep(env, p, n, vars)
    ensures Step(env, p, pick, n, vars).Some?
    ensures var e := Step(env, p, pick, n, vars).value;
            Ranked(env, e.proc) && Declared(env, p, e, n, vars, current)
  {
    hide Eval, Declared, Acyclic, Ranked, CanStep, Resolved;
    LiveParts(env, p, n, vars);
    if IsLeaf(p) {
      pick := Here;
      LeafDeclared(env, p, n, vars, current);
    } else if p.Flow? && Resolved(p.cur) && p.rest != [] {
      pick := Here;
      AdvanceDeclared(env, p, n, vars, current);
    } else if p.Flow? {
      pick := NextStep(env, p.cur, n, vars, current);
      FlowDeclared(env, p, Step(env, p.cur, pick, n, vars).value, n, vars, current);
    } else if !AtRest(env, p.head) {
      Anywhere(env, p.head, n, vars);
      var inner := NextStep(env, p.head, n, vars, current);
      pick := InHead(inner);
      HeadDeclared(env, p, Step(env, p.head, inner, n, vars).value, n, vars, current);
    } else {
      Anywhere(env, p.head, n, vars);
      var inner := NextStep(env, p.tail, n, vars, current);
      pick := InTail(inner);
      TailDeclared(env, p, Step(env, p.tail, inner, n, vars).value, n, vars, current);
    }
  }

  lemma LiveParts(env: Env, p: Proc, n: nat, vars: Vars)
    requires Ranked(env, p) && CanStep(env, p, n, vars)
    ensures p.Flow? ==> Ranked(env, p.cur) && (CanStep(env, p.cur, n, vars) || (Resolved(p.cur) && p.rest != []))
    ensures p.Fork? ==> Ranked(env, p.head) && Ranked(env, p.tail)
    ensures p.Fork? ==> CanStep(env, p.head, n, vars) || CanStep(env, p.tail, n, vars)
    ensures p.Flow? || p.Fork? || IsLeaf(p)
  {
    var pick :| Step(env, p, pick, n, vars).Some?;
    assert p.Flow? && !(Resolved(p.cur) && p.rest != []) ==> Step(env, p.cur, pick, n, vars).Some?;
    assert p.Fork? && pick.InHead? ==> Step(env, p.head, pick.pick, n, vars).Some?;
    assert p.Fork? && pick.InTail? ==> Step(env, p.tail, pick.pick, n, vars).Some?;
  }

  lemma Anywhere(env: Env, p: Proc, n: nat, vars: Vars)
    ensures AtRest(env, p) <==> !CanStep(env, p, n, vars)
  {
    if AtRest(env, p) {
      StillAnywhere(env, p, 0, map[], n, vars);
    } else if !CanStep(env, p, n, vars) {
      StillAnywhere(env, p, n, vars, 0, map[]);
    }
  }

  lemma AdvanceDeclared(env: Env, p: Proc, n: nat, vars: Vars, current: Option<string>)
    requires Acyclic(env) && Ranked(env, p) && p.Flow? && Resolved(p.cur) && p.rest != []
    ensures var e := Step(env, p, Here, n, vars).value;
            Ranked(env, e.proc) && Declared(env, p, e, n, vars, current)
  {
    hide Eval, Acyclic;
    FlowAdvancePreserves(env, p, n, vars);
    var e := Step(env, p, Here, n, vars).value;
    var later := Eval(env, e.proc, n + e.ticks, Merge(vars, e.writes));
    assert e == Effect(Flow(Ready(p.rest[0]), p.rest[1..]), 0, [], [], None);
    assert InOrder(env, e.proc, current);
    assert [] + later.log == later.log;
    assert Eval(env, p, n, vars).log == later.log;
  }

  // ---------- the whole walk as a schedule ----------

  /** The machine has come to rest with exactly what the walk in declaration order leaves. */
  ghost predicate EndsAs(env: Env, m: Machine, o: Outcome, t: Machine)
  {
    && !CanStep(env, t.proc, t.step, t.vars)
    && t.step == m.step + o.visits && t.vars == Merge(m.vars, o.writes) && t.log == m.log + o.log
    && (if o.failure.None? then Resolved(t.proc) else o.failure.value in Errors(t.proc))
  }

  lemma RestEnds(env: Env, m: Machine)
    requires Acyclic(env) && Ranked(env, m.proc) && !CanStep(env, m.proc, m.step, m.vars)
    ensures EndsAs(env, m, Eval(env, m.proc, m.step, m.vars), m)
    ensures forall current :: LastNode(current, Eval(env, m.proc, m.step, m.vars).log) == current
  {
    hide Eval, CanStep;
    StillIsDone(env, m.proc, m.step, m.vars);
    StillVerdict(env, m.proc, m.step, m.vars, m.step, m.vars);
    assert m.log + [] == m.log;
  }

  lemma StepThenEnds(env: Env, m: Machine, e: Effect, o: Outcome, t: Machine)
    requires EndsAs(env, Apply(m, e), o, t)
    ensures EndsAs(env, m, Done(e).Then(o), t)
  {
    hide CanStep, Resolved, Errors;
    MergeAppend(m.vars, e.writes, o.writes);
    assert m.log + (e.rows + o.log) == m.log + e.rows + o.log;
  }

  lemma {:induction false} DeclarationSchedule(env: Env, m: Machine, current: Option<string>)
    returns (picks: seq<Pick>, t: Machine)
    requires Acyclic(env) && Ranked(env, m.proc) && InOrder(env, m.proc, current)
    ensures Execute(env, m, picks) == Some(t)
    ensures var o := Eval(env, m.proc, m.step, m.vars);
            EndsAs(env, m, o, t) && Marks(env, m, picks, current) == LastNode(current, o.log)
    decreases Cost(env, m.proc)
  {
    hide Eval, EndsAs, CanStep, Step, InOrder, LastNode;
    if CanStep(env, m.proc, m.step, m.vars) {
      var pick := NextStep(env, m.proc, m.step, m.vars, current);
      var e := Step(env, m.proc, pick, m.step, m.vars).value;
      StepLowersCost(env, m.proc, pick, m.step, m.vars);
      var rest;
      rest, t := DeclarationSchedule(env, Apply(m, e), Mark(current, e));
      picks := [pick] + rest;
      assert picks[1..] == rest;
      StepThenEnds(env, m, e, Eval(env, e.proc, m.step + e.ticks, Merge(m.vars, e.writes)), t);
    } else {
      picks, t := [], m;
      RestEnds(env, m);
    }
  }

  /** Whatever the branches share: some schedule of a run ends with exactly the variables, the rows in their order, the
      step count and the verdict of the walk in declaration order. */
  lemma WalkIsASchedule(env: Env, node: Node, vars: Vars) returns (picks: seq<Pick>, t: Machine)
    requires Acyclic(env) && node in env.graph.nodes && node.id in env.ranks
    ensures Execute(env, Machine(Ready(node), 0, vars, []), picks) == Some(t)
    ensures EndsAs(env, Machine(Ready(node), 0, vars, []), Walk(env, node, 0, vars), t)
  {
    picks, t := DeclarationSchedule(env, Machine(Ready(node), 0, vars, []), None);
  }
}
