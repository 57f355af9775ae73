/** The graph validator: structural checks and a coloured depth-first search. */
module GraphValidation {
  import opened Collections
  import opened WorkflowGraphs

  /** One constructor per message that the validator can report. */
  datatype Flaw =
    | NotAGraph
    | NodeMissingId
    | DuplicateNodeId(id: string)
    | NodeMissingType(id: string)
    | NoTrigger
    | ManyTriggers
    | EdgeMissingId
    | SourceNotFound(edge: Edge)
    | TargetNotFound(edge: Edge)
    | SelfLoop(edge: Edge)
    | CycleAt(id: string)
    | NoEndReached

  datatype Color = White | Gray | Black

  // ---------- what the flaws mean ----------

  function Triggers(g: Graph): seq<Node>
  {
    Filter(g.nodes, (n: Node) => n.kind == TRIGGER)
  }

  ghost predicate ReachesEnd(g: Graph, root: string)
  {
    exists v :: Reaches(g, root, v) && IsEnd(g, v)
  }

  /** `id` is a non-empty id of some node. */
  predicate KnownId(g: Graph, id: string)
  {
    id != "" && GetNode(g, id).Some?
  }

  ghost predicate NodeFlaw(nodes: seq<Node>, f: Flaw)
  {
    match f
    case NodeMissingId => exists n :: n in nodes && n.id == ""
    case DuplicateNodeId(id) =>
      id != "" && exists i, j :: 0 <= i < j < |nodes| && nodes[i].id == id && nodes[j].id == id
    case NodeMissingType(id) => exists n :: n in nodes && n.id == id && n.kind == ""
    case _ => false
  }

  ghost predicate EdgeFlaw(g: Graph, edges: seq<Edge>, f: Flaw)
  {
    match f
    case EdgeMissingId => exists e :: e in edges && e.id == ""
    case SourceNotFound(e) => e in edges && !KnownId(g, e.source)
    case TargetNotFound(e) => e in edges && !KnownId(g, e.target)
    case SelfLoop(e) => e in edges && e.source == e.target
    case _ => false
  }

  ghost predicate TriggerFlaw(g: Graph, f: Flaw)
  {
    || (f == NoTrigger && |Triggers(g)| == 0)
    || (f == ManyTriggers && |Triggers(g)| > 1)
  }

  /** The declarative reading of each report. */
  ghost predicate Cause(g: Graph, f: Flaw)
  {
    || NodeFlaw(g.nodes, f)
    || EdgeFlaw(g, g.edges, f)
    || TriggerFlaw(g, f)
    || (|Triggers(g)| == 1 &&
        var root := Triggers(g)[0].id;
        || (f.CycleAt? && Reaches(g, root, f.id) && OnCycle(g, f.id))
        || (f.NoEndReached? && !ReachesEnd(g, root)))
  }

  /** The conditions an executable graph meets, stated without the algorithm. */
  ghost predicate WellFormed(g: Graph)
  {
    && (forall n :: n in g.nodes ==> n.id != "" && n.kind != "")
    && (forall i, j :: 0 <= i < j < |g.nodes| ==> g.nodes[i].id != g.nodes[j].id)
    && (forall e :: e in g.edges ==>
          && e.id != ""
          && GetNode(g, e.source).Some? && GetNode(g, e.target).Some?
          && e.source != e.target)
    && |Triggers(g)| == 1
    && AcyclicFrom(g, Triggers(g)[0].id)
    && ReachesEnd(g, Triggers(g)[0].id)
  }

  /** The id of the trigger. */
  ghost function Root(g: Graph): string
    requires WellFormed(g)
  {
    Triggers(g)[0].id
  }

  // ---------- helper facts for the search ----------

  ghost predicate StrictlyReaches(g: Graph, a: string, b: string)
  {
    exists w :: HasEdge(g, a, w) && Reaches(g, w, b)
  }

  lemma StrictlyReachesExtend(g: Graph, a: string, b: string, c: string)
    requires HasEdge(g, b, c) && (a == b || StrictlyReaches(g, a, b))
    ensures StrictlyReaches(g, a, c)
  {
    ReachesSelf(g, c);
    if a != b {
      var w :| HasEdge(g, a, w) && Reaches(g, w, b);
      ReachesEdge(g, b, c);
      ReachesTransitive(g, w, b, c);
    }
  }

  ghost predicate HasCycleFlaw(fs: seq<Flaw>)
  {
    exists f :: f in fs && f.CycleAt?
  }

  /** Every edge out of a listed id leads to an id listed earlier. */
  ghost predicate Ordered(g: Graph, order: seq<string>)
  {
    forall i, w :: 0 <= i < |order| && HasEdge(g, order[i], w) ==> w in order[..i]
  }

  lemma OrderedIsAcyclic(g: Graph, order: seq<string>, root: string)
    requires Ordered(g, order) && root in order
    ensures AcyclicFrom(g, root)
  {
    var ids := set x | x in order;
    forall v | Reaches(g, root, v)
      ensures !OnCycle(g, v)
    {
      ClosedContainsReachable(g, ids, root, v);
      OrderedNotOnCycle(g, order, v);
    }
  }

  lemma OrderedNotOnCycle(g: Graph, order: seq<string>, v: string)
    requires Ordered(g, order) && v in order
    ensures !OnCycle(g, v)
  {
    var i := FirstIndex(order, v);
    if OnCycle(g, v) {
      var w :| HasEdge(g, v, w) && Reaches(g, w, v);
      var before := set x | x in order[..i];
      forall x, y | x in before && HasEdge(g, x, y)
        ensures y in before
      {
        var j :| 0 <= j < i && order[j] == x;
        assert y in order[..j];
      }
      ClosedContainsReachable(g, before, w, v);
      assert false;
    }
  }

  lemma {:induction false} FirstIndex(order: seq<string>, v: string) returns (i: nat)
    requires v in order
    ensures i < |order| && order[i] == v && v !in order[..i]
  {
    if order[0] == v {
      i := 0;
    } else {
      var j := FirstIndex(order[1..], v);
      i := j + 1;
      assert order[..i] == [order[0]] + order[1..][..j];
    }
  }

  // ---------- the state of the search ----------

  /** `grays` and `blacks` are the ids of those colours. */
  ghost predicate Painted(color: map<string, Color>, grays: set<string>, blacks: set<string>)
  {
    && (forall k :: k in grays <==> k in color && color[k] == Gray)
    && (forall k :: k in blacks <==> k in color && color[k] == Black)
  }

  /** What the colours, the finishing order and `hasEnd` say throughout the search from `root`. */
  ghost predicate Explored(g: Graph, root: string, grays: set<string>, blacks: set<string>,
                           finished: seq<string>, hasEnd: bool)
  {
    && (forall v :: v in grays + blacks ==> Reaches(g, root, v))
    && (forall v, w :: v in blacks && HasEdge(g, v, w) ==> w in grays + blacks)
    && (forall v :: v in finished <==> v in blacks)
    && (hasEnd <==> exists v :: v in grays + blacks && IsEnd(g, v))
  }

  /** Every report of the search is a genuine cycle below `root`. */
  ghost predicate Reported(g: Graph, root: string, errors: seq<Flaw>)
  {
    forall f :: f in errors ==> f.CycleAt? && Reaches(g, root, f.id) && OnCycle(g, f.id)
  }

  /** The ids that the given edges lead to. */
  ghost function TargetIds(es: seq<Edge>): set<string>
  {
    set e | e in es :: e.target
  }

  lemma SearchEdge(g: Graph, root: string, grays: set<string>, id: string, t: string)
    requires HasEdge(g, id, t) && Reaches(g, root, id)
    requires forall x :: x in grays ==> x == id || StrictlyReaches(g, x, id)
    ensures Reaches(g, root, t) && t in Universe(g)
    ensures forall x :: x in grays ==> StrictlyReaches(g, x, t)
  {
    ReachesEdge(g, id, t);
    ReachesTransitive(g, root, id, t);
    forall x | x in grays
      ensures StrictlyReaches(g, x, t)
    {
      StrictlyReachesExtend(g, x, id, t);
    }
  }

  lemma OrderedAppend(g: Graph, order: seq<string>, id: string)
    requires Ordered(g, order)
    requires forall w :: HasEdge(g, id, w) ==> w in order
    ensures Ordered(g, order + [id])
  {
    var r := order + [id];
    forall i, w | 0 <= i < |r| && HasEdge(g, r[i], w)
      ensures w in r[..i]
    {
      if i < |order| {
        assert r[..i] == order[..i];
      } else {
        assert r[..i] == order;
      }
    }
  }

  /** Once the search is over, black is exactly the reachable set and a report means a cycle. */
  lemma SearchVerdict(g: Graph, root: string, blacks: set<string>, finished: seq<string>, hasEnd: bool,
                      errors: seq<Flaw>)
    requires Explored(g, root, {}, blacks, finished, hasEnd) && Reported(g, root, errors)
    requires errors == [] ==> Ordered(g, finished)
    requires root in blacks
    ensures forall v :: v in blacks <==> Reaches(g, root, v)
    ensures HasCycleFlaw(errors) <==> !AcyclicFrom(g, root)
    ensures hasEnd <==> ReachesEnd(g, root)
  {
    forall v | Reaches(g, root, v)
      ensures v in blacks
    {
      ClosedContainsReachable(g, blacks, root, v);
    }
    if errors == [] {
      OrderedIsAcyclic(g, finished, root);
    } else {
      assert errors[0].CycleAt?;
    }
  }

  // ---------- the validator ----------

  method CheckNodes(nodes: seq<Node>) returns (errors: seq<Flaw>, nodeIds: set<string>)
    ensures forall f :: f in errors <==> NodeFlaw(nodes, f)
    ensures forall id :: id in nodeIds <==> id != "" && exists n :: n in nodes && n.id == id
  {
    errors, nodeIds := [], {};
    for i := 0 to |nodes|
      invariant forall id :: id in nodeIds <==> id != "" && exists n :: n in nodes[..i] && n.id == id
      invariant forall f :: f in errors <==> NodeFlaw(nodes[..i], f)
    {
      var n := nodes[i];
      NodeFlawStep(nodes[..i], n, nodeIds);
      assert nodes[..i + 1] == nodes[..i] + [n];
      if n.id == "" {
        errors := errors + [NodeMissingId];
      } else if n.id in nodeIds {
        errors := errors + [DuplicateNodeId(n.id)];
      } else {
        nodeIds := nodeIds + {n.id};
      }
      if n.kind == "" {
        errors := errors + [NodeMissingType(n.id)];
      }
    }
    assert nodes[..|nodes|] == nodes;
  }

  /** What one more node adds to the node flaws. */
  lemma NodeFlawStep(a: seq<Node>, n: Node, seenIds: set<string>)
    requires forall id :: id in seenIds <==> id != "" && exists m :: m in a && m.id == id
    ensures forall f :: NodeFlaw(a + [n], f) <==>
              || NodeFlaw(a, f)
              || (n.id == "" && f == NodeMissingId)
              || (n.id in seenIds && f == DuplicateNodeId(n.id))
              || (n.kind == "" && f == NodeMissingType(n.id))
  {
    var b := a + [n];
    assert forall m :: m in b <==> m in a || m == n;
    forall f
      ensures NodeFlaw(b, f) <==>
                || NodeFlaw(a, f)
                || (n.id == "" && f == NodeMissingId)
                || (n.id in seenIds && f == DuplicateNodeId(n.id))
                || (n.kind == "" && f == NodeMissingType(n.id))
    {
      match f
      case DuplicateNodeId(id) => DuplicateStep(a, n, id);
      case _ =>
    }
  }

  lemma DuplicateStep(a: seq<Node>, n: Node, id: string)
    ensures NodeFlaw(a + [n], DuplicateNodeId(id)) <==>
              || NodeFlaw(a, DuplicateNodeId(id))
              || (id != "" && n.id == id && exists m :: m in a && m.id == id)
  {
    var b := a + [n];
    if NodeFlaw(a, DuplicateNodeId(id)) {
      var i, j :| 0 <= i < j < |a| && a[i].id == id && a[j].id == id;
      assert b[i].id == id && b[j].id == id;
    }
    if id != "" && n.id == id && exists m :: m in a && m.id == id {
      var i :| 0 <= i < |a| && a[i].id == id;
      assert b[i].id == id && b[|a|].id == id;
    }
    if NodeFlaw(b, DuplicateNodeId(id)) {
      var i, j :| 0 <= i < j < |b| && b[i].id == id && b[j].id == id;
      assert a[i].id == id && a[i] in a;
      if j < |a| {
        assert a[j].id == id;
      }
    }
  }

  method CheckTriggers(g: Graph) returns (errors: seq<Flaw>, triggers: seq<Node>)
    ensures triggers == Triggers(g)
    ensures forall f :: f in errors <==> TriggerFlaw(g, f)
  {
    errors, triggers := [], Triggers(g);
    if |triggers| == 0 { errors := errors + [NoTrigger]; }
    if |triggers| > 1 { errors := errors + [ManyTriggers]; }
  }

  method CheckEdges(g: Graph, nodeIds: set<string>) returns (errors: seq<Flaw>)
    requires forall id :: id in nodeIds <==> KnownId(g, id)
    ensures forall f :: f in errors <==> EdgeFlaw(g, g.edges, f)
  {
    errors := [];
    for i := 0 to |g.edges|
      invariant forall f :: f in errors <==> EdgeFlaw(g, g.edges[..i], f)
    {
      var e := g.edges[i];
      if e.id == "" { errors := errors + [EdgeMissingId]; }
      if e.source !in nodeIds { errors := errors + [SourceNotFound(e)]; }
      if e.target !in nodeIds { errors := errors + [TargetNotFound(e)]; }
      if e.source == e.target { errors := errors + [SelfLoop(e)]; }
      assert g.edges[..i + 1] == g.edges[..i] + [e];
    }
    assert g.edges[..|g.edges|] == g.edges;
  }

  type Adjacency = map<string, seq<Edge>>

  /** `adjacency.get(id) ?? []` */
  function Neighbours(adjacency: Adjacency, id: string): seq<Edge>
  {
    if id in adjacency then adjacency[id] else []
  }

  method BuildAdjacency(edges: seq<Edge>) returns (adjacency: Adjacency)
    ensures forall s :: Neighbours(adjacency, s) == Filter(edges, (e: Edge) => e.source == s)
  {
    adjacency := map[];
    for i := 0 to |edges|
      invariant forall s :: Neighbours(adjacency, s) == Filter(edges[..i], (e: Edge) => e.source == s)
    {
      var e := edges[i];
      ghost var was := adjacency;
      adjacency := adjacency[e.source := Neighbours(adjacency, e.source) + [e]];
      assert edges[..i + 1] == edges[..i] + [e];
      forall s
        ensures Neighbours(adjacency, s) == Filter(edges[..i + 1], (e: Edge) => e.source == s)
      {
        FilterAppend(edges[..i], [e], (e: Edge) => e.source == s);
        assert Neighbours(adjacency, s) == Neighbours(was, s) + (if e.source == s then [e] else []);
      }
    }
    assert edges[..|edges|] == edges;
  }

  /** The adjacency map leads from each id along exactly its edges. */
  ghost predicate Complete(g: Graph, adjacency: Adjacency)
  {
    forall s, t :: t in TargetIds(Neighbours(adjacency, s)) <==> HasEdge(g, s, t)
  }

  lemma BuiltIsComplete(g: Graph, adjacency: Adjacency)
    requires forall s :: Neighbours(adjacency, s) == OutgoingEdges(g, s)
    ensures Complete(g, adjacency)
  {
    forall s, t
      ensures t in TargetIds(Neighbours(adjacency, s)) <==> HasEdge(g, s, t)
    {
      forall e
        ensures e in OutgoingEdges(g, s) <==> e in g.edges && e.source == s
      {
        OutgoingMember(g, s, e);
      }
    }
  }

  /** The variables that the search closure captures. */
  datatype SearchState = SearchState(color: map<string, Color>, hasEnd: bool, errors: seq<Flaw>)

  /** Bookkeeping for the proof: the black ids, and the order in which they turned black. */
  datatype Trail = Trail(blacks: set<string>, finished: seq<string>)

  /** What holds at every moment of the search from `root`, with `grays` the ids on the call stack. */
  ghost predicate SearchInvariant(g: Graph, root: string, grays: set<string>, s: SearchState, t: Trail)
  {
    && Painted(s.color, grays, t.blacks)
    && Explored(g, root, grays, t.blacks, t.finished, s.hasEnd)
    && Reported(g, root, s.errors)
    && (s.errors == [] ==> Ordered(g, t.finished))
  }

  /** An id turns gray. */
  function Enter(g: Graph, s: SearchState, id: string): SearchState
  {
    s.(color := s.color[id := Gray], hasEnd := s.hasEnd || IsEnd(g, id))
  }

  lemma EnterKeepsInvariant(g: Graph, root: string, grays: set<string>, s: SearchState, t: Trail, id: string)
    requires SearchInvariant(g, root, grays, s, t) && Reaches(g, root, id) && id !in grays + t.blacks
    ensures SearchInvariant(g, root, grays + {id}, Enter(g, s, id), t)
  {
    assert grays + {id} + t.blacks == grays + t.blacks + {id};
  }

  /** An id turns black, after everything its edges lead to was seen. */
  function Leave(s: SearchState, id: string): SearchState
  {
    s.(color := s.color[id := Black])
  }

  function Finish(t: Trail, id: string): Trail
  {
    Trail(t.blacks + {id}, t.finished + [id])
  }

  lemma LeaveKeepsInvariant(g: Graph, root: string, grays: set<string>, s: SearchState, t: Trail, id: string)
    requires SearchInvariant(g, root, grays + {id}, s, t) && id !in grays
    requires forall w :: HasEdge(g, id, w) ==> w in grays + {id} + t.blacks
    requires s.errors == [] ==> forall w :: HasEdge(g, id, w) ==> w in t.blacks
    ensures SearchInvariant(g, root, grays, Leave(s, id), Finish(t, id))
  {
    assert grays + {id} + t.blacks == grays + (t.blacks + {id});
    if s.errors == [] {
      OrderedAppend(g, t.finished, id);
    }
  }

  lemma CycleKeepsInvariant(g: Graph, root: string, grays: set<string>, s: SearchState, t: Trail, id: string)
    requires SearchInvariant(g, root, grays, s, t) && Reaches(g, root, id) && StrictlyReaches(g, id, id)
    ensures SearchInvariant(g, root, grays, s.(errors := s.errors + [CycleAt(id)]), t)
  {
    assert OnCycle(g, id);
  }

  /** The inner `dfs` closure. */
  method Search(g: Graph, adjacency: Adjacency, id: string, s0: SearchState,
                ghost root: string, ghost grays: set<string>, ghost t0: Trail)
    returns (s: SearchState, ghost t: Trail)
    requires Complete(g, adjacency) && SearchInvariant(g, root, grays, s0, t0)
    requires Reaches(g, root, id) && id in Universe(g) + {root}
    requires forall x :: x in grays ==> StrictlyReaches(g, x, id)
    ensures SearchInvariant(g, root, grays, s, t)
    ensures t0.blacks <= t.blacks && s0.errors <= s.errors
    ensures id in grays + t.blacks && (s.errors == [] ==> id in t.blacks)
    decreases Universe(g) + {root} - (grays + t0.blacks)
  {
    hide Reaches, StrictlyReaches, HasEdge, Explored, Reported, Ordered, IsEnd, Universe;
    if id in s0.color && s0.color[id] == Gray {
      CycleKeepsInvariant(g, root, grays, s0, t0, id);
      return s0.(errors := s0.errors + [CycleAt(id)]), t0;
    }
    if id in s0.color && s0.color[id] == Black {
      return s0, t0;
    }
    EnterKeepsInvariant(g, root, grays, s0, t0, id);
    s, t := Enter(g, s0, id), t0;
    ghost var stack := grays + {id};
    var targets := Neighbours(adjacency, id);
    for i := 0 to |targets|
      invariant SearchInvariant(g, root, stack, s, t)
      invariant t0.blacks <= t.blacks && s0.errors <= s.errors
      invariant TargetIds(targets[..i]) <= stack + t.blacks
      invariant s.errors == [] ==> TargetIds(targets[..i]) <= t.blacks
    {
      assert targets[i].target in TargetIds(targets);
      SearchEdge(g, root, stack, id, targets[i].target);
      s, t := Search(g, adjacency, targets[i].target, s, root, stack, t);
    }
    assert targets[..|targets|] == targets;
    LeaveKeepsInvariant(g, root, grays, s, t, id);
    s, t := Leave(s, id), Finish(t, id);
  }

  /** Colours every node white, searches from `root` and reports a missing END. */
  method SearchFrom(g: Graph, root: string) returns (errors: seq<Flaw>, black: set<string>)
    ensures forall v :: v in black <==> Reaches(g, root, v)
    ensures forall f :: f in errors ==>
              || (f.CycleAt? && Reaches(g, root, f.id) && OnCycle(g, f.id))
              || (f == NoEndReached && !ReachesEnd(g, root))
    ensures HasCycleFlaw(errors) <==> !AcyclicFrom(g, root)
    ensures NoEndReached in errors <==> !ReachesEnd(g, root)
  {
    var adjacency := BuildAdjacency(g.edges);
    BuiltIsComplete(g, adjacency);
    var color: map<string, Color> := map[];
    for i := 0 to |g.nodes|
      invariant forall k :: k in color ==> color[k] == White
    {
      color := color[g.nodes[i].id := White];
    }
    ReachesSelf(g, root);
    var s, t := Search(g, adjacency, root, SearchState(color, false, []), root, {}, Trail({}, []));
    SearchVerdict(g, root, t.blacks, t.finished, s.hasEnd, s.errors);
    black := set k | k in s.color && s.color[k] == Black;
    errors := s.errors + (if s.hasEnd then [] else [NoEndReached]);
  }

  /** `validateGraph`: ok exactly when the graph is well formed, and every report is a real flaw. */
  method ValidateGraph(input: Option<Graph>) returns (ok: bool, errors: seq<Flaw>)
    ensures ok <==> errors == []
    ensures input.None? ==> errors == [NotAGraph]
    ensures ok <==> input.Some? && WellFormed(input.value)
    ensures input.Some? ==> forall f :: f in errors ==> Cause(input.value, f)
    ensures input.Some? ==> forall f :: Cause(input.value, f) && !f.CycleAt? ==> f in errors
    ensures input.Some? && |Triggers(input.value)| == 1 ==>
              (HasCycleFlaw(errors) <==> !AcyclicFrom(input.value, Triggers(input.value)[0].id))
  {
    if input.None? {
      return false, [NotAGraph];
    }
    var g := input.value;
    var nodeErrors, nodeIds := CheckNodes(g.nodes);
    var triggerErrors, triggers := CheckTriggers(g);
    forall id
      ensures id in nodeIds <==> KnownId(g, id)
    {
      FoundIfPresent(g.nodes, id);
    }
    var edgeErrors := CheckEdges(g, nodeIds);
    var found := [];
    if |triggers| == 1 {
      var black;
      found, black := SearchFrom(g, triggers[0].id);
    }
    errors := nodeErrors + triggerErrors + edgeErrors + found;
    ok := |errors| == 0;
    assert forall f :: f in errors <==> f in nodeErrors || f in triggerErrors || f in edgeErrors || f in found;
    assert HasCycleFlaw(errors) <==> HasCycleFlaw(found);
    CleanIsWellFormed(g);
    if ok {
      assert nodeErrors == [] && triggerErrors == [] && edgeErrors == [] && found == [];
      assert |Triggers(g)| == 1 by {
        assert !TriggerFlaw(g, NoTrigger) && !TriggerFlaw(g, ManyTriggers);
      }
    } else {
      assert errors[0] in errors;
    }
  }

  /** No structural report, no cycle and a reachable END: that is well-formedness. */
  lemma CleanIsWellFormed(g: Graph)
    ensures WellFormed(g) <==>
              && (forall f :: !NodeFlaw(g.nodes, f) && !TriggerFlaw(g, f) && !EdgeFlaw(g, g.edges, f))
              && |Triggers(g)| == 1
              && AcyclicFrom(g, Triggers(g)[0].id)
              && ReachesEnd(g, Triggers(g)[0].id)
  {
    if forall f :: !NodeFlaw(g.nodes, f) && !TriggerFlaw(g, f) && !EdgeFlaw(g, g.edges, f) {
      NodesClean(g.nodes);
      EdgesClean(g);
    }
    if WellFormed(g) {
      forall f
        ensures !NodeFlaw(g.nodes, f) && !TriggerFlaw(g, f) && !EdgeFlaw(g, g.edges, f)
      {
      }
    }
  }

  lemma NodesClean(nodes: seq<Node>)
    requires forall f :: !NodeFlaw(nodes, f)
    ensures forall n :: n in nodes ==> n.id != "" && n.kind != ""
    ensures forall i, j :: 0 <= i < j < |nodes| ==> nodes[i].id != nodes[j].id
  {
    assert !NodeFlaw(nodes, NodeMissingId);
    forall n | n in nodes
      ensures n.kind != ""
    {
      assert !NodeFlaw(nodes, NodeMissingType(n.id));
    }
    forall i, j | 0 <= i < j < |nodes|
      ensures nodes[i].id != nodes[j].id
    {
      assert !NodeFlaw(nodes, DuplicateNodeId(nodes[i].id));
      assert nodes[i] in nodes;
    }
  }

  lemma EdgesClean(g: Graph)
    requires forall f :: !EdgeFlaw(g, g.edges, f)
    ensures forall e :: e in g.edges ==>
              e.id != "" && KnownId(g, e.source) && KnownId(g, e.target) && e.source != e.target
  {
    forall e | e in g.edges
      ensures e.id != "" && KnownId(g, e.source) && KnownId(g, e.target) && e.source != e.target
    {
      assert !EdgeFlaw(g, g.edges, EdgeMissingId);
      assert !EdgeFlaw(g, g.edges, SourceNotFound(e));
      assert !EdgeFlaw(g, g.edges, TargetNotFound(e));
      assert !EdgeFlaw(g, g.edges, SelfLoop(e));
    }
  }
}
