/** The paths of a graph, and how a run in declaration order that nothing holds back writes one row for each. */
module WalkPaths {
  import opened Collections
  import opened WorkflowGraphs
  import opened GraphPaths
  import opened WorkflowWalk

  // ---------- paths ----------

  /** The positions, from `i` on, of the edges that leave `id`. */
  function OutPositions(g: Graph, id: string, i: nat): seq<nat>
    decreases |g.edges| - i
  {
    if i >= |g.edges| then []
    else if g.edges[i].source == id then [i] + OutPositions(g, id, i + 1)
    else OutPositions(g, id, i + 1)
  }

  ghost predicate OutBelow(env: Env, id: string, ps: seq<nat>)
  {
    id in env.ranks && forall k :: 0 <= k < |ps| ==>
      ps[k] < |env.graph.edges| && env.graph.edges[ps[k]].source == id
      && env.graph.edges[ps[k]].target in env.ranks && env.ranks[env.graph.edges[ps[k]].target] < env.ranks[id]
  }

  lemma {:induction false} OutPositionsBelow(env: Env, id: string, i: nat)
    requires Acyclic(env) && id in env.ranks
    ensures OutBelow(env, id, OutPositions(env.graph, id, i))
    ensures forall k :: k in OutPositions(env.graph, id, i) <==>
            i <= k < |env.graph.edges| && env.graph.edges[k].source == id
    decreases |env.graph.edges| - i
  {
    if i < |env.graph.edges| {
      OutPositionsBelow(env, id, i + 1);
      assert env.graph.edges[i] in env.graph.edges;
    }
  }

  function Extend(i: nat, paths: seq<Path>): seq<Path>
  {
    Map(paths, (p: Path) => [i] + p)
  }

  /** All paths from `id`, in the order of a depth-first traversal. */
  ghost function PathsFrom(env: Env, id: string): seq<Path>
    requires Acyclic(env) && id in env.ranks
    decreases env.ranks[id], 1, 0
  {
    OutPositionsBelow(env, id, 0);
    [[]] + (if IsEnd(env.graph, id) then [] else PathsVia(env, id, OutPositions(env.graph, id, 0)))
  }

  ghost function PathsVia(env: Env, id: string, ps: seq<nat>): seq<Path>
    requires Acyclic(env) && OutBelow(env, id, ps)
    decreases env.ranks[id], 0, |ps|
  {
    if ps == [] then []
    else Extend(ps[0], PathsFrom(env, env.graph.edges[ps[0]].target)) + PathsVia(env, id, ps[1..])
  }

  ghost predicate Distinct<T>(s: seq<T>)
  {
    forall i, j :: 0 <= i < j < |s| ==> s[i] != s[j]
  }

  lemma ExtendMember(i: nat, paths: seq<Path>, p: Path)
    ensures p in Extend(i, paths) <==> p != [] && p[0] == i && p[1..] in paths
  {
    if p in Extend(i, paths) {
      var k :| 0 <= k < |paths| && Extend(i, paths)[k] == p;
      assert p == [i] + paths[k];
    }
    if p != [] && p[0] == i && p[1..] in paths {
      var k :| 0 <= k < |paths| && paths[k] == p[1..];
      assert Extend(i, paths)[k] == [i] + p[1..] == p;
    }
  }

  lemma DistinctAppend<T>(a: seq<T>, b: seq<T>)
    requires Distinct(a) && Distinct(b) && forall x :: x in a ==> x !in b
    ensures Distinct(a + b)
  {
    var s := a + b;
    forall i, j | 0 <= i < j < |s| ensures s[i] != s[j] {
      assert s[i] == if i < |a| then a[i] else b[i - |a|];
      assert s[j] == if j < |a| then a[j] else b[j - |a|];
      assert s[i] in a || s[i] in b;
      assert j >= |a| ==> s[j] in b;
      assert i < |a| ==> s[i] in a;
    }
  }

  /** `PathsFrom` lists exactly the paths, each once. */
  lemma {:induction false} PathsFromListsPaths(env: Env, id: string)
    requires Acyclic(env) && id in env.ranks
    ensures Distinct(PathsFrom(env, id))
    ensures forall p :: p in PathsFrom(env, id) <==> IsPath(env.graph, id, p)
    decreases env.ranks[id], 1, 0
  {
    hide PathsVia;
    OutPositionsBelow(env, id, 0);
    assert OutBelow(env, id, OutPositions(env.graph, id, 0));
    assert PathsFrom(env, id)
           == [[]] + (if IsEnd(env.graph, id) then [] else PathsVia(env, id, OutPositions(env.graph, id, 0)));
    hide PathsFrom, PathsVia, OutPositions, IsPath, IsEnd, Acyclic, OutBelow;
    var ps := OutPositions(env.graph, id, 0);
    OutPositionsBelow(env, id, 0);
    OutPositionsDistinct(env.graph, id, 0);
    if !IsEnd(env.graph, id) {
      PathsViaListsPaths(env, id, ps);
      DistinctAppend([[]], PathsVia(env, id, ps));
    }
    forall p
      ensures p in PathsFrom(env, id) <==> IsPath(env.graph, id, p)
    {
      assert IsPath(env.graph, id, p) <==>
        p == [] || (!IsEnd(env.graph, id) && p[0] < |env.graph.edges| && env.graph.edges[p[0]].source == id
                    && IsPath(env.graph, env.graph.edges[p[0]].target, p[1..]));
    }
  }

  lemma {:induction false} OutPositionsDistinct(g: Graph, id: string, i: nat)
    ensures Distinct(OutPositions(g, id, i)) && forall k :: k in OutPositions(g, id, i) ==> i <= k
    decreases |g.edges| - i
  {
    if i < |g.edges| {
      OutPositionsDistinct(g, id, i + 1);
      DistinctAppend([i], OutPositions(g, id, i + 1));
    }
  }

  lemma {:induction false} PathsViaListsPaths(env: Env, id: string, ps: seq<nat>)
    requires Acyclic(env) && OutBelow(env, id, ps) && Distinct(ps)
    ensures Distinct(PathsVia(env, id, ps))
    ensures forall p :: p in PathsVia(env, id, ps) <==>
              p != [] && p[0] in ps && IsPath(env.graph, env.graph.edges[p[0]].target, p[1..])
    decreases env.ranks[id], 0, |ps|
  {
    if ps != [] {
      var target := env.graph.edges[ps[0]].target;
      var first, others := Extend(ps[0], PathsFrom(env, target)), PathsVia(env, id, ps[1..]);
      PathsFromListsPaths(env, target);
      PathsViaListsPaths(env, id, ps[1..]);
      var e := Extend(ps[0], PathsFrom(env, target));
      forall j, k | 0 <= j < k < |e| ensures e[j] != e[k] {
        assert e[j][1..] == PathsFrom(env, target)[j] && e[k][1..] == PathsFrom(env, target)[k];
      }
      assert Distinct(Extend(ps[0], PathsFrom(env, target)));
      forall p
        ensures p in first <==> p != [] && p[0] == ps[0] && IsPath(env.graph, target, p[1..])
      {
        ExtendMember(ps[0], PathsFrom(env, target), p);
      }
      assert ps[0] !in ps[1..];
      DistinctAppend(first, others);
    }
  }

  // ---------- where the paths end ----------

  ghost function EndsFrom(env: Env, id: string): seq<string>
    requires Acyclic(env) && id in env.ranks
    decreases env.ranks[id], 2, 0
  {
    [id] + EndsAfter(env, id)
  }

  ghost function EndsAfter(env: Env, id: string): seq<string>
    requires Acyclic(env) && id in env.ranks
    decreases env.ranks[id], 1, 0
  {
    OutPositionsBelow(env, id, 0);
    if IsEnd(env.graph, id) then [] else EndsVia(env, id, OutPositions(env.graph, id, 0))
  }

  ghost function EndsVia(env: Env, id: string, ps: seq<nat>): seq<string>
    requires Acyclic(env) && OutBelow(env, id, ps)
    decreases env.ranks[id], 0, |ps|
  {
    if ps == [] then [] else EndsFrom(env, env.graph.edges[ps[0]].target) + EndsVia(env, id, ps[1..])
  }

  /** The k-th id of `ends` is where the k-th path ends. */
  ghost predicate EndOfEach(g: Graph, id: string, paths: seq<Path>, ends: seq<string>)
  {
    |paths| == |ends| && forall k :: 0 <= k < |paths| ==> PathEnd(g, id, paths[k]) == ends[k]
  }

  lemma {:induction false} EndsAreEndsOfPaths(env: Env, id: string)
    requires Acyclic(env) && id in env.ranks
    ensures EndOfEach(env.graph, id, PathsFrom(env, id), EndsFrom(env, id))
    decreases env.ranks[id], 1, 0
  {
    OutPositionsBelow(env, id, 0);
    if !IsEnd(env.graph, id) {
      EndsViaAreEndsOfPaths(env, id, OutPositions(env.graph, id, 0));
    }
  }

  lemma {:induction false} EndsViaAreEndsOfPaths(env: Env, id: string, ps: seq<nat>)
    requires Acyclic(env) && OutBelow(env, id, ps)
    ensures EndOfEach(env.graph, id, PathsVia(env, id, ps), EndsVia(env, id, ps))
    decreases env.ranks[id], 0, |ps|
  {
    if ps != [] {
      var target := env.graph.edges[ps[0]].target;
      EndsAreEndsOfPaths(env, target);
      EndsViaAreEndsOfPaths(env, id, ps[1..]);
      var paths := PathsFrom(env, target);
      forall k | 0 <= k < |paths|
        ensures PathEnd(env.graph, id, Extend(ps[0], paths)[k]) == EndsFrom(env, target)[k]
      {
        assert Extend(ps[0], paths)[k] == [ps[0]] + paths[k];
        assert ([ps[0]] + paths[k])[1..] == paths[k];
      }
    }
  }

  // ---------- runs that nothing holds back ----------

  /** At every node a run can visit the handler succeeds, and so do the conditions on the edges that leave it. */
  ghost predicate Unhindered(env: Env)
  {
    && (forall n: nat, node, vars ::
          node in env.graph.nodes && node.id in env.ranks ==> env.handler(n, node, vars).ok)
    && (forall e, vars :: e in env.graph.edges && e.source in env.ranks ==> Holds(env.test, e.condition, vars))
  }

  /** Lookups find the node itself, every node a run can visit has a handler, and no edge dangles. */
  ghost predicate Resolvable(env: Env)
  {
    && (forall node :: node in env.graph.nodes ==> GetNode(env.graph, node.id) == Some(node))
    && (forall node :: node in env.graph.nodes && node.id in env.ranks ==> node.kind in HANDLED)
    && (forall e :: e in env.graph.edges ==> GetNode(env.graph, e.target).Some?)
  }

  ghost function EndsOfNodes(env: Env, nodes: seq<Node>): seq<string>
    requires Acyclic(env) && AllRanked(env, nodes)
  {
    if nodes == [] then [] else EndsFrom(env, nodes[0].id) + EndsOfNodes(env, nodes[1..])
  }

  /** The k-th of the nodes is the target of the k-th of the positions. */
  ghost predicate Targets(g: Graph, nodes: seq<Node>, ps: seq<nat>)
  {
    && |nodes| == |ps|
    && forall k :: 0 <= k < |ps| ==> ps[k] < |g.edges| && nodes[k].id == g.edges[ps[k]].target
  }

  /** The edges from position `i` on that a walk follows from `id`. */
  function FollowedFrom(env: Env, id: string, vars: Vars, i: nat): seq<Edge>
    requires i <= |env.graph.edges|
  {
    Filter(Filter(env.graph.edges[i..], (e: Edge) => e.source == id), (e: Edge) => Holds(env.test, e.condition, vars))
  }

  lemma FollowedFirst(env: Env, id: string, vars: Vars, i: nat)
    requires i < |env.graph.edges|
    ensures var e, rest := env.graph.edges[i], FollowedFrom(env, id, vars, i + 1);
            FollowedFrom(env, id, vars, i) ==
            if e.source == id && Holds(env.test, e.condition, vars) then [e] + rest else rest
  {
    var e, rest := env.graph.edges[i], env.graph.edges[i + 1..];
    assert env.graph.edges[i..][0] == e && env.graph.edges[i..][1..] == rest;
    var out := Filter(rest, (e: Edge) => e.source == id);
    assert ([e] + out)[1..] == out;
  }

  lemma SuccessorsFirst(g: Graph, e: Edge, rest: seq<Edge>)
    requires GetNode(g, e.target).Some?
    ensures Successors(g, [e] + rest) == [GetNode(g, e.target).value] + Successors(g, rest)
  {
    assert ([e] + rest)[1..] == rest;
  }

  /** All the targets are next, in the order of the edges. */
  lemma {:induction false} NextFollowsEveryEdge(env: Env, id: string, vars: Vars, i: nat)
    requires Unhindered(env) && Resolvable(env) && id in env.ranks && i <= |env.graph.edges|
    ensures Targets(env.graph, Successors(env.graph, FollowedFrom(env, id, vars, i)), OutPositions(env.graph, id, i))
    decreases |env.graph.edges| - i
  {
    hide FollowedFrom, GetNode, Successors;
    if i == |env.graph.edges| {
      NothingFollowed(env, id, vars);
    } else {
      NextFollowsEveryEdge(env, id, vars, i + 1);
      FollowedFirst(env, id, vars, i);
      var e := env.graph.edges[i];
      assert e in env.graph.edges;
      if e.source == id {
        SuccessorsFirst(env.graph, e, FollowedFrom(env, id, vars, i + 1));
      }
    }
  }

  lemma NothingFollowed(env: Env, id: string, vars: Vars)
    ensures Successors(env.graph, FollowedFrom(env, id, vars, |env.graph.edges|)) == []
  {
  }

  lemma {:induction false} EndsOfTargets(env: Env, id: string, nodes: seq<Node>, ps: seq<nat>)
    requires Acyclic(env) && OutBelow(env, id, ps) && AllRanked(env, nodes) && Targets(env.graph, nodes, ps)
    ensures EndsOfNodes(env, nodes) == EndsVia(env, id, ps)
  {
    hide EndsFrom;
    if ps != [] {
      EndsOfTargets(env, id, nodes[1..], ps[1..]);
    }
  }

  lemma NextEnds(env: Env, node: Node, vars: Vars)
    requires Acyclic(env) && Unhindered(env) && Resolvable(env)
    requires node in env.graph.nodes && node.id in env.ranks && node.kind != END
    ensures AllRanked(env, Next(env, node.id, vars)) && Listed(env, Next(env, node.id, vars))
    ensures EndsOfNodes(env, Next(env, node.id, vars)) == EndsAfter(env, node.id)
  {
    hide EndsOfNodes, EndsVia;
    NextFollowsEveryEdge(env, node.id, vars, 0);
    NextAreBelow(env, node.id, vars);
    OutPositionsBelow(env, node.id, 0);
    assert env.graph.edges[0..] == env.graph.edges;
    EndsOfTargets(env, node.id, Next(env, node.id, vars), OutPositions(env.graph, node.id, 0));
  }

  function Ids(log: seq<LogRow>): seq<string>
  {
    Map(log, (r: LogRow) => r.nodeId)
  }

  lemma IdsAppend(a: seq<LogRow>, b: seq<LogRow>)
    ensures Ids(a + b) == Ids(a) + Ids(b)
  {
  }

  /** In declaration order, row k is written for the end of the k-th path. */
  lemma {:induction false} WalkLogsPaths(env: Env, node: Node, n: nat, vars: Vars)
    requires Acyclic(env) && Unhindered(env) && Resolvable(env)
    requires node in env.graph.nodes && node.id in env.ranks
    ensures var o := Walk(env, node, n, vars);
            o.failure.None? && Ids(o.log) == EndsFrom(env, node.id)
    decreases env.ranks[node.id], 2, 0
  {
    hide EndsAfter, WalkAll, Next, EndsOfNodes, Matching;
    var res := env.handler(n + 1, node, vars);
    var v := vars + res.setVars;
    if node.kind == END {
      EndStops(env, node);
    } else {
      NextEnds(env, node, v);
      NextAreBelow(env, node.id, v);
      var fork := Forks(node, Matching(env.graph, env.test, node.id, v));
      WalkAllLogsPaths(env, fork, Next(env, node.id, v), n + 1, v);
      IdsAppend([Row(node, res)], WalkAll(env, fork, Next(env, node.id, v), n + 1, v).log);
    }
  }

  lemma EndStops(env: Env, node: Node)
    requires Acyclic(env) && Resolvable(env) && node in env.graph.nodes && node.id in env.ranks
             && node.kind == END
    ensures EndsAfter(env, node.id) == []
  {
  }

  lemma {:induction false} WalkAllLogsPaths(env: Env, fork: bool, nodes: seq<Node>, n: nat, vars: Vars)
    requires Acyclic(env) && Unhindered(env) && Resolvable(env)
    requires AllRanked(env, nodes) && Listed(env, nodes)
    ensures var o := WalkAll(env, fork, nodes, n, vars);
            o.failure.None? && Ids(o.log) == EndsOfNodes(env, nodes)
    decreases RankBound(env, nodes), 0, |nodes|
  {
    hide EndsFrom, WalkAll, Walk;
    if nodes == [] {
      WalkAllNone(env, fork, n, vars);
    } else {
      assert nodes[0] in nodes;
      WalkAllUnfold(env, fork, nodes, n, vars);
      WalkLogsPaths(env, nodes[0], n, vars);
      var one := Walk(env, nodes[0], n, vars);
      WalkAllLogsPaths(env, fork, nodes[1..], n + one.visits, Merge(vars, one.writes));
      IdsAppend(one.log, WalkAll(env, fork, nodes[1..], n + one.visits, Merge(vars, one.writes)).log);
    }
  }

  /** A run in declaration order writes exactly one row per path, in depth-first order. */
  lemma RowsArePaths(env: Env, node: Node, vars: Vars)
    requires Acyclic(env) && Unhindered(env) && Resolvable(env)
    requires node in env.graph.nodes && node.id in env.ranks
    ensures var log, paths := Walk(env, node, 0, vars).log, PathsFrom(env, node.id);
            && |log| == |paths|
            && (forall k :: 0 <= k < |log| ==> log[k].nodeId == PathEnd(env.graph, node.id, paths[k]))
            && Distinct(paths)
            && (forall p :: p in paths <==> IsPath(env.graph, node.id, p))
  {
    hide Walk;
    WalkLogsPaths(env, node, 0, vars);
    EndsAreEndsOfPaths(env, node.id);
    PathsFromListsPaths(env, node.id);
    var log := Walk(env, node, 0, vars).log;
    assert forall k :: 0 <= k < |log| ==> log[k].nodeId == Ids(log)[k];
  }
}
