/** What branches can see of each other: executions depend only on what they read. */
module Interference {
  import opened WorkflowGraphs
  import opened WorkflowWalk
  import opened WorkflowMachine
  import opened BranchFootprints
  import opened ProcessMeaning

  // ---------- executions depend only on the footprint ----------

  lemma {:induction false} AgreeMergeAll(a: Vars, b: Vars, writes: seq<Vars>, keys: iset<string>)
    requires Agree(a, b, keys)
    ensures Agree(Merge(a, writes), Merge(b, writes), keys)
    decreases |writes|
  {
    if writes != [] {
      AgreeMergeAll(a + writes[0], b + writes[0], writes[1..], keys);
    }
  }

  /** Two contexts a part of a run cannot tell apart. */
  ghost predicate Alike(env: Env, n: nat, m: nat, a: Vars, b: Vars, keys: iset<string>)
  {
    Agree(a, b, keys) && (n == m || Timeless(env))
  }

  lemma AlikeAfter(env: Env, n: nat, m: nat, a: Vars, b: Vars, keys: iset<string>, o: Outcome, sub: iset<string>)
    requires Alike(env, n, m, a, b, keys) && sub <= keys
    ensures Alike(env, n + o.visits, m + o.visits, Merge(a, o.writes), Merge(b, o.writes), sub)
  {
    AgreeMergeAll(a, b, o.writes, keys);
  }

  lemma AlikeSub(env: Env, n: nat, m: nat, a: Vars, b: Vars, keys: iset<string>, sub: iset<string>)
    requires Alike(env, n, m, a, b, keys) && sub <= keys
    ensures Alike(env, n, m, a, b, sub)
  {
  }

  lemma {:induction false} WalkFrame(env: Env, fp: Footprint, node: Node, n: nat, m: nat, a: Vars, b: Vars)
    requires Acyclic(env) && Confined(env, fp) && node in env.graph.nodes && node.id in env.ranks
    requires Alike(env, n, m, a, b, fp.reading(node.id))
    ensures Walk(env, node, n, a) == Walk(env, node, m, b)
    decreases env.ranks[node.id], 2, 0
  {
    if node.kind in HANDLED {
      assert Local(env, fp, node);
      var res := env.handler(n + 1, node, a);
      assert res == env.handler(m + 1, node, b) by {
        assert env.handler(n + 1, node, a) == env.handler(n + 1, node, b);
      }
      ConcludeFrame(env, fp, node, res, n + 1, m + 1, a + res.setVars, b + res.setVars);
    }
  }

  lemma {:induction false} ConcludeFrame(env: Env, fp: Footprint, node: Node, res: NodeResult,
                                         n: nat, m: nat, a: Vars, b: Vars)
    requires Acyclic(env) && Confined(env, fp) && node in env.graph.nodes && node.id in env.ranks
    requires Alike(env, n, m, a, b, fp.reading(node.id))
    ensures Conclude(env, node, res, n, a) == Conclude(env, node, res, m, b)
    decreases env.ranks[node.id], 1, 0
  {
    if res.ok && node.kind != END {
      assert Local(env, fp, node);
      assert Matching(env.graph, env.test, node.id, a) == Matching(env.graph, env.test, node.id, b);
      var next := Next(env, node.id, a);
      NextAreBelow(env, node.id, a);
      NextWithin(env, fp, node.id, a);
      AlikeSub(env, n, m, a, b, fp.reading(node.id), ReadsOf(fp, next));
      WalkAllFrame(env, fp, Forks(node, Matching(env.graph, env.test, node.id, a)), next, n, m, a, b);
    }
  }

  lemma {:induction false} WalkAllFrame(env: Env, fp: Footprint, fork: bool, nodes: seq<Node>,
                                        n: nat, m: nat, a: Vars, b: Vars)
    requires Acyclic(env) && Confined(env, fp) && AllRanked(env, nodes) && Listed(env, nodes)
    requires Alike(env, n, m, a, b, ReadsOf(fp, nodes))
    ensures WalkAll(env, fork, nodes, n, a) == WalkAll(env, fork, nodes, m, b)
    decreases RankBound(env, nodes), 0, |nodes|
  {
    hide WalkAll, Walk, Agree, Confined, Merge, Outcome.Then;
    if nodes == [] {
      WalkAllNone(env, fork, n, a);
      WalkAllNone(env, fork, m, b);
    } else {
      assert nodes[0] in nodes;
      WalkAllUnfold(env, fork, nodes, n, a);
      WalkAllUnfold(env, fork, nodes, m, b);
      AlikeSub(env, n, m, a, b, ReadsOf(fp, nodes), fp.reading(nodes[0].id));
      WalkFrame(env, fp, nodes[0], n, m, a, b);
      var one := Walk(env, nodes[0], n, a);
      AlikeAfter(env, n, m, a, b, ReadsOf(fp, nodes), one, ReadsOf(fp, nodes[1..]));
      WalkAllFrame(env, fp, fork, nodes[1..], n + one.visits, m + one.visits, Merge(a, one.writes),
                   Merge(b, one.writes));
    }
  }

  // ---------- executions write only inside the footprint ----------

  lemma {:induction false} WalkWrites(env: Env, fp: Footprint, node: Node, n: nat, vars: Vars)
    requires Acyclic(env) && Confined(env, fp) && node in env.graph.nodes && node.id in env.ranks
    ensures AllWithin(Walk(env, node, n, vars).writes, fp.writing(node.id))
    decreases env.ranks[node.id], 2, 0
  {
    if node.kind in HANDLED {
      assert Local(env, fp, node);
      var res := env.handler(n + 1, node, vars);
      ConcludeWrites(env, fp, node, res, n + 1, vars + res.setVars);
    }
  }

  lemma {:induction false} ConcludeWrites(env: Env, fp: Footprint, node: Node, res: NodeResult, n: nat, vars: Vars)
    requires Acyclic(env) && Confined(env, fp) && node in env.graph.nodes && node.id in env.ranks
    ensures AllWithin(Conclude(env, node, res, n, vars).writes, fp.writing(node.id))
    decreases env.ranks[node.id], 1, 0
  {
    if res.ok && node.kind != END {
      NextAreBelow(env, node.id, vars);
      NextWithin(env, fp, node.id, vars);
      WalkAllWrites(env, fp, Forks(node, Matching(env.graph, env.test, node.id, vars)), Next(env, node.id, vars), n,
                    vars);
    }
  }

  lemma {:induction false} WalkAllWrites(env: Env, fp: Footprint, fork: bool, nodes: seq<Node>, n: nat, vars: Vars)
    requires Acyclic(env) && Confined(env, fp) && AllRanked(env, nodes) && Listed(env, nodes)
    ensures AllWithin(WalkAll(env, fork, nodes, n, vars).writes, WritesOf(fp, nodes))
    decreases RankBound(env, nodes), 0, |nodes|
  {
    if nodes != [] {
      assert nodes[0] in nodes;
      WalkWrites(env, fp, nodes[0], n, vars);
      var one := Walk(env, nodes[0], n, vars);
      WalkAllWrites(env, fp, fork, nodes[1..], n + one.visits, Merge(vars, one.writes));
    }
  }

  lemma LeafFrame(env: Env, fp: Footprint, p: Proc, n: nat, m: nat, a: Vars, b: Vars)
    requires Acyclic(env) && Confined(env, fp) && IsLeaf(p) && Ranked(env, p)
    requires Alike(env, n, m, a, b, Reads(fp, p))
    ensures Eval(env, p, n, a) == Eval(env, p, m, b)
  {
    match p
    case Ready(node) => WalkFrame(env, fp, node, n, m, a, b);
    case Executing(node, res) =>
      ConcludeFrame(env, fp, node, res, n, m, a + res.setVars, b + res.setVars);
    case Merged(node, res) => ConcludeFrame(env, fp, node, res, n, m, a, b);
    case Logged(node, res) => ConcludeFrame(env, fp, node, res, n, m, a, b);
  }

  lemma {:induction false} EvalFrame(env: Env, fp: Footprint, p: Proc, n: nat, m: nat, a: Vars, b: Vars)
    requires Acyclic(env) && Confined(env, fp) && Ranked(env, p)
    requires Alike(env, n, m, a, b, Reads(fp, p))
    ensures Eval(env, p, n, a) == Eval(env, p, m, b)
  {
    hide Eval, WalkAll, Agree, Confined, Merge;
    match p
    case Flow(cur, rest) =>
      FlowUnfold(env, p, n, a);
      FlowUnfold(env, p, m, b);
      AlikeSub(env, n, m, a, b, Reads(fp, p), Reads(fp, cur));
      EvalFrame(env, fp, cur, n, m, a, b);
      var o := Eval(env, cur, n, a);
      AlikeAfter(env, n, m, a, b, Reads(fp, p), o, ReadsOf(fp, rest));
      WalkAllFrame(env, fp, false, rest, n + o.visits, m + o.visits, Merge(a, o.writes), Merge(b, o.writes));
    case Fork(head, tail) =>
      ForkUnfold(env, p, n, a);
      ForkUnfold(env, p, m, b);
      AlikeSub(env, n, m, a, b, Reads(fp, p), Reads(fp, head));
      EvalFrame(env, fp, head, n, m, a, b);
      var o := Eval(env, head, n, a);
      AlikeAfter(env, n, m, a, b, Reads(fp, p), o, Reads(fp, tail));
      EvalFrame(env, fp, tail, n + o.visits, m + o.visits, Merge(a, o.writes), Merge(b, o.writes));
    case Finished => NothingLeft(env, n, a); NothingLeft(env, m, b);
    case Rejected(error) => RejectedLeft(env, error, n, a); RejectedLeft(env, error, m, b);
    case _ => LeafFrame(env, fp, p, n, m, a, b);
  }

  lemma LeafWrites(env: Env, fp: Footprint, p: Proc, n: nat, vars: Vars)
    requires Acyclic(env) && Confined(env, fp) && IsLeaf(p) && Ranked(env, p) && Separated(env, fp, p)
    ensures AllWithin(Eval(env, p, n, vars).writes, Writes(fp, p))
  {
    match p
    case Ready(node) => WalkWrites(env, fp, node, n, vars);
    case Executing(node, res) => ConcludeWrites(env, fp, node, res, n, vars + res.setVars);
    case Merged(node, res) => ConcludeWrites(env, fp, node, res, n, vars);
    case Logged(node, res) => ConcludeWrites(env, fp, node, res, n, vars);
  }

  lemma {:induction false} EvalWrites(env: Env, fp: Footprint, p: Proc, n: nat, vars: Vars)
    requires Acyclic(env) && Confined(env, fp) && Ranked(env, p) && Separated(env, fp, p)
    ensures AllWithin(Eval(env, p, n, vars).writes, Writes(fp, p))
  {
    hide Eval, WalkAll, Confined, Merge;
    match p
    case Flow(cur, rest) =>
      FlowUnfold(env, p, n, vars);
      EvalWrites(env, fp, cur, n, vars);
      var o := Eval(env, cur, n, vars);
      WalkAllWrites(env, fp, false, rest, n + o.visits, Merge(vars, o.writes));
    case Fork(head, tail) =>
      ForkUnfold(env, p, n, vars);
      EvalWrites(env, fp, head, n, vars);
      var o := Eval(env, head, n, vars);
      EvalWrites(env, fp, tail, n + o.visits, Merge(vars, o.writes));
    case Finished => NothingLeft(env, n, vars);
    case Rejected(error) => RejectedLeft(env, error, n, vars);
    case _ => LeafWrites(env, fp, p, n, vars);
  }

  lemma LocalNode(env: Env, fp: Footprint, node: Node)
    requires Confined(env, fp) && node in env.graph.nodes && node.id in env.ranks
    ensures Local(env, fp, node)
  {
  }

  lemma NextAlike(env: Env, id: string, a: Vars, b: Vars)
    requires Matching(env.graph, env.test, id, a) == Matching(env.graph, env.test, id, b)
    ensures Next(env, id, a) == Next(env, id, b)
  {
  }

  lemma {:induction false} StepFrame(env: Env, fp: Footprint, p: Proc, pick: Pick, n: nat, m: nat, a: Vars, b: Vars)
    requires Confined(env, fp) && Ranked(env, p) && Alike(env, n, m, a, b, Reads(fp, p))
    ensures Step(env, p, pick, n, a) == Step(env, p, pick, m, b)
  {
    hide Confined, Resolved, Matching, Next;
    match p
    case Ready(node) =>
      assert node in Pending(p);
      LocalNode(env, fp, node);
      assert env.handler(n + 1, node, a) == env.handler(n + 1, node, b);
    case Logged(node, res) =>
      assert node in Pending(p);
      LocalNode(env, fp, node);
      NextAlike(env, node.id, a, b);
    case Flow(cur, rest) =>
      StepFrame(env, fp, cur, pick, n, m, a, b);
    case Fork(head, tail) =>
      if pick.InHead? {
        StepFrame(env, fp, head, pick.pick, n, m, a, b);
      } else if pick.InTail? {
        StepFrame(env, fp, tail, pick.pick, n, m, a, b);
      }
    case _ =>
  }

  // ---------- merges that do not meet ----------

  lemma {:induction false} MergeForeign(vars: Vars, x: Vars, writes: seq<Vars>, keys: iset<string>,
                                        others: iset<string>)
    requires Within(x, keys) && AllWithin(writes, others) && Disjoint(keys, others)
    ensures Merge(vars + x, writes) == Merge(vars, writes) + x
    decreases |writes|
  {
    if writes != [] {
      assert vars + x + writes[0] == vars + writes[0] + x by {
        assert forall k :: k in x ==> k !in writes[0];
      }
      MergeForeign(vars + writes[0], x, writes[1..], keys, others);
    }
  }

  lemma {:induction false} MergeCommutes(vars: Vars, a: seq<Vars>, b: seq<Vars>, keysA: iset<string>,
                                         keysB: iset<string>)
    requires AllWithin(a, keysA) && AllWithin(b, keysB) && Disjoint(keysA, keysB)
    ensures Merge(Merge(vars, a), b) == Merge(Merge(vars, b), a)
    decreases |a|
  {
    if a != [] {
      MergeCommutes(vars + a[0], a[1..], b, keysA, keysB);
      MergeForeign(vars, a[0], b, keysA, keysB);
    }
  }

  /** Writes outside the keys leave two contexts alike on them. */
  lemma {:induction false} MergeKeepsAgreement(vars: Vars, writes: seq<Vars>, written: iset<string>, keys: iset<string>)
    requires AllWithin(writes, written) && Disjoint(written, keys)
    ensures Agree(vars, Merge(vars, writes), keys)
    decreases |writes|
  {
    if writes != [] {
      MergeKeepsAgreement(vars + writes[0], writes[1..], written, keys);
    }
  }
}
