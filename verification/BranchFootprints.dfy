/** Which variables the parts of a graph may read and write, and what makes branches independent. */
module BranchFootprints {
  import opened WorkflowGraphs
  import opened WorkflowWalk
  import opened WorkflowMachine

  /** For each node id, the variables that the nodes at or below it may read and may write. */
  datatype Footprint = Footprint(reading: string -> iset<string>, writing: string -> iset<string>)

  ghost predicate Agree(a: Vars, b: Vars, keys: iset<string>)
  {
    forall k :: k in keys ==> (k in a <==> k in b) && (k in a ==> a[k] == b[k])
  }

  ghost predicate Within(delta: Vars, keys: iset<string>)
  {
    forall k :: k in delta ==> k in keys
  }

  ghost predicate AllWithin(writes: seq<Vars>, keys: iset<string>)
  {
    forall i :: 0 <= i < |writes| ==> Within(writes[i], keys)
  }

  ghost predicate Disjoint(a: iset<string>, b: iset<string>)
  {
    forall k :: k in a ==> k !in b
  }

  /** The handlers of the graph's nodes do not look at the step counter. */
  ghost predicate Timeless(env: Env)
  {
    forall n: nat, m: nat, node: Node, vars ::
      node in env.graph.nodes ==> env.handler(n, node, vars) == env.handler(m, node, vars)
  }

  /** The handler and the edge conditions of one node stay inside its footprint. */
  ghost predicate Local(env: Env, fp: Footprint, node: Node)
  {
    && (forall n: nat, vars :: Within(env.handler(n, node, vars).setVars, fp.writing(node.id)))
    && (forall n: nat, a, b :: Agree(a, b, fp.reading(node.id)) ==> env.handler(n, node, a) == env.handler(n, node, b))
    && (forall a, b :: Agree(a, b, fp.reading(node.id)) ==>
          Matching(env.graph, env.test, node.id, a) == Matching(env.graph, env.test, node.id, b))
  }

  /** Every node a run can visit stays inside its footprint, and footprints grow towards the root. */
  ghost predicate Confined(env: Env, fp: Footprint)
  {
    && (forall node :: node in env.graph.nodes && node.id in env.ranks ==> Local(env, fp, node))
    && (forall e :: e in env.graph.edges && e.source in env.ranks ==>
          fp.reading(e.target) <= fp.reading(e.source) && fp.writing(e.target) <= fp.writing(e.source))
  }

  /** Neither side writes what the other reads or writes. */
  ghost predicate Apart(readsA: iset<string>, writesA: iset<string>, readsB: iset<string>, writesB: iset<string>)
  {
    Disjoint(writesA, readsB) && Disjoint(writesA, writesB) && Disjoint(writesB, readsA)
  }

  ghost predicate ApartIds(fp: Footprint, a: string, b: string)
  {
    Apart(fp.reading(a), fp.writing(a), fp.reading(b), fp.writing(b))
  }

  /** Any two of the edges, by position, lead to independent parts of the graph. */
  ghost predicate PairwiseApart(fp: Footprint, es: seq<Edge>)
  {
    es == [] || ((forall e :: e in es[1..] ==> ApartIds(fp, es[0].target, e.target)) && PairwiseApart(fp, es[1..]))
  }

  /** The branches that a PARALLEL node of a run ever starts together are independent. */
  ghost predicate Independent(env: Env, fp: Footprint)
  {
    forall node, vars ::
      node in env.graph.nodes && node.id in env.ranks && Forks(node, Matching(env.graph, env.test, node.id, vars))
      ==> Timeless(env) && PairwiseApart(fp, Matching(env.graph, env.test, node.id, vars))
  }

  // ---------- footprints of processes ----------

  ghost function ReadsOf(fp: Footprint, nodes: seq<Node>): iset<string>
  {
    if nodes == [] then iset{} else fp.reading(nodes[0].id) + ReadsOf(fp, nodes[1..])
  }

  ghost function WritesOf(fp: Footprint, nodes: seq<Node>): iset<string>
  {
    if nodes == [] then iset{} else fp.writing(nodes[0].id) + WritesOf(fp, nodes[1..])
  }

  ghost function Reads(fp: Footprint, p: Proc): iset<string>
  {
    match p
    case Flow(cur, rest) => Reads(fp, cur) + ReadsOf(fp, rest)
    case Fork(head, tail) => Reads(fp, head) + Reads(fp, tail)
    case Finished => iset{}
    case Rejected(_) => iset{}
    case _ => fp.reading(p.node.id)
  }

  ghost function Writes(fp: Footprint, p: Proc): iset<string>
  {
    match p
    case Flow(cur, rest) => Writes(fp, cur) + WritesOf(fp, rest)
    case Fork(head, tail) => Writes(fp, head) + Writes(fp, tail)
    case Finished => iset{}
    case Rejected(_) => iset{}
    case _ => fp.writing(p.node.id)
  }

  /** Concurrent parts of the process are independent, and results in flight stay inside the footprint. */
  ghost predicate Separated(env: Env, fp: Footprint, p: Proc)
  {
    match p
    case Executing(node, res) => Within(res.setVars, fp.writing(node.id))
    case Flow(cur, _) => Separated(env, fp, cur)
    case Fork(head, tail) =>
      && Separated(env, fp, head) && Separated(env, fp, tail)
      && Apart(Reads(fp, head), Writes(fp, head), Reads(fp, tail), Writes(fp, tail))
      && Timeless(env)
    case _ => true
  }

  // ---------- the footprint of what comes next ----------

  lemma {:induction false} NodesWithin(fp: Footprint, nodes: seq<Node>, rs: iset<string>, ws: iset<string>)
    requires forall x :: x in nodes ==> fp.reading(x.id) <= rs && fp.writing(x.id) <= ws
    ensures ReadsOf(fp, nodes) <= rs && WritesOf(fp, nodes) <= ws
  {
    if nodes != [] {
      assert nodes[0] in nodes;
      NodesWithin(fp, nodes[1..], rs, ws);
    }
  }

  lemma NextWithin(env: Env, fp: Footprint, id: string, vars: Vars)
    requires Acyclic(env) && Confined(env, fp) && id in env.ranks
    ensures ReadsOf(fp, Next(env, id, vars)) <= fp.reading(id)
    ensures WritesOf(fp, Next(env, id, vars)) <= fp.writing(id)
  {
    NextAreBelow(env, id, vars);
    NodesWithin(fp, Next(env, id, vars), fp.reading(id), fp.writing(id));
  }

  /** The nodes are independent of whatever `a` is independent of, branch by branch. */
  lemma {:induction false} ApartFromAll(fp: Footprint, a: string, nodes: seq<Node>)
    requires forall x :: x in nodes ==> ApartIds(fp, a, x.id)
    ensures Apart(fp.reading(a), fp.writing(a), ReadsOf(fp, nodes), WritesOf(fp, nodes))
  {
    if nodes != [] {
      assert nodes[0] in nodes;
      ApartFromAll(fp, a, nodes[1..]);
    }
  }

  lemma {:induction false} ForkOfFootprint(fp: Footprint, nodes: seq<Node>)
    ensures Reads(fp, ForkOf(nodes)) == ReadsOf(fp, nodes) && Writes(fp, ForkOf(nodes)) == WritesOf(fp, nodes)
  {
    if nodes != [] {
      ForkOfFootprint(fp, nodes[1..]);
    }
  }

  lemma {:induction false} BranchesSeparated(env: Env, fp: Footprint, es: seq<Edge>)
    requires Timeless(env) && PairwiseApart(fp, es)
    ensures Separated(env, fp, ForkOf(Successors(env.graph, es)))
  {
    if es != [] {
      BranchesSeparated(env, fp, es[1..]);
      var next := GetNode(env.graph, es[0].target);
      if next.Some? {
        var others := Successors(env.graph, es[1..]);
        var all := Successors(env.graph, es);
        assert all == [next.value] + others;
        assert all[1..] == others;
        forall x | x in others
          ensures ApartIds(fp, next.value.id, x.id)
        {
          SuccessorIsTarget(env.graph, es[1..], x);
        }
        ApartFromAll(fp, next.value.id, others);
        ForkOfFootprint(fp, others);
      }
    }
  }

  lemma ResumeSeparated(env: Env, fp: Footprint, node: Node, res: NodeResult, vars: Vars)
    requires Acyclic(env) && Confined(env, fp) && Independent(env, fp) && node.id in env.ranks
             && node in env.graph.nodes
    ensures var q := Resume(env, node, res, vars);
            Separated(env, fp, q) && Reads(fp, q) <= fp.reading(node.id) && Writes(fp, q) <= fp.writing(node.id)
  {
    NextWithin(env, fp, node.id, vars);
    if Forks(node, Matching(env.graph, env.test, node.id, vars)) {
      BranchesSeparated(env, fp, Matching(env.graph, env.test, node.id, vars));
      ForkOfFootprint(fp, Next(env, node.id, vars));
    }
  }

  // ---------- a step stays inside the footprint ----------

  lemma {:induction false} StepStaysInside(env: Env, fp: Footprint, p: Proc, pick: Pick, n: nat, vars: Vars)
    requires Acyclic(env) && Confined(env, fp) && Independent(env, fp)
    requires Ranked(env, p) && Separated(env, fp, p) && Step(env, p, pick, n, vars).Some?
    ensures var e := Step(env, p, pick, n, vars).value;
            && Ranked(env, e.proc) && Separated(env, fp, e.proc)
            && Reads(fp, e.proc) <= Reads(fp, p) && Writes(fp, e.proc) <= Writes(fp, p)
            && AllWithin(e.writes, Writes(fp, p))
  {
    StepKeepsRanked(env, p, pick, n, vars);
    match p
    case Ready(node) =>
      assert Local(env, fp, node);
    case Logged(node, res) =>
      ResumeSeparated(env, fp, node, res, vars);
    case Flow(cur, rest) =>
      if !(Resolved(cur) && rest != []) {
        StepStaysInside(env, fp, cur, pick, n, vars);
      }
    case Fork(head, tail) =>
      var inner := pick.pick;
      if pick.InHead? {
        StepStaysInside(env, fp, head, inner, n, vars);
        var h := Step(env, head, inner, n, vars).value.proc;
      } else {
        StepStaysInside(env, fp, tail, inner, n, vars);
        var t := Step(env, tail, inner, n, vars).value.proc;
      }
    case _ =>
  }
}
