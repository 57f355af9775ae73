/** Where the validator accepts more than its description says, and what that costs. */
module ValidationGaps {
  import opened Collections
  import opened WorkflowGraphs
  import opened GraphValidation
  import opened GraphPaths
  import opened FailureHalts

  ghost predicate IsDag(g: Graph)
  {
    forall v :: !OnCycle(g, v)
  }

  predicate EdgeIdsAreUnique(g: Graph)
  {
    forall i, j :: 0 <= i < j < |g.edges| ==> g.edges[i].id != g.edges[j].id
  }

  /** The search only starts from the trigger. An accepted graph is a DAG, as described, if and only if the search
      would find no cycle from any of the nodes it has not reached either. */
  lemma AcceptedIsDagIff(g: Graph)
    requires WellFormed(g)
    ensures IsDag(g) <==> forall n :: n in g.nodes && !Reaches(g, Root(g), n.id) ==> AcyclicFrom(g, n.id)
  {
    assert forall e :: e in g.edges ==> GetNode(g, e.source).Some?;
    hide WellFormed, Root;
    if forall n :: n in g.nodes && !Reaches(g, Root(g), n.id) ==> AcyclicFrom(g, n.id) {
      forall v
        ensures !OnCycle(g, v)
      {
        if OnCycle(g, v) {
          var w :| HasEdge(g, v, w) && Reaches(g, w, v);
          var e :| e in g.edges && e.source == v && e.target == w;
          assert GetNode(g, v).value in g.nodes && GetNode(g, v).value.id == v;
          ReachesSelf(g, v);
          RootIsAcyclic(g);
          assert false;
        }
      }
    }
  }

  lemma RootIsAcyclic(g: Graph)
    requires WellFormed(g)
    ensures AcyclicFrom(g, Root(g))
  {
  }

  // ---------- edge ids ----------

  /** The graphs differ at most in the ids, and conditions, of their edges. */
  ghost predicate SameShape(g: Graph, h: Graph)
  {
    && h.nodes == g.nodes && |h.edges| == |g.edges|
    && (forall i :: 0 <= i < |g.edges| ==>
          h.edges[i].source == g.edges[i].source && h.edges[i].target == g.edges[i].target)
  }

  predicate NoEdgeIdMissing(g: Graph)
  {
    forall e :: e in g.edges ==> e.id != ""
  }

  lemma SameEdges(g: Graph, h: Graph, a: string, b: string)
    requires SameShape(g, h) && HasEdge(g, a, b)
    ensures HasEdge(h, a, b)
  {
    var e :| e in g.edges && e.source == a && e.target == b;
    var i :| 0 <= i < |g.edges| && g.edges[i] == e;
    assert h.edges[i] in h.edges;
  }

  lemma {:induction false} SameRoutes(g: Graph, h: Graph, a: string, b: string, n: nat)
    requires SameShape(g, h) && ReachesIn(g, a, b, n)
    ensures ReachesIn(h, a, b, n)
    decreases n
  {
    if n > 0 {
      var c :| HasEdge(g, a, c) && ReachesIn(g, c, b, n - 1);
      SameEdges(g, h, a, c);
      SameRoutes(g, h, c, b, n - 1);
    }
  }

  lemma SameReach(g: Graph, h: Graph, a: string, b: string)
    requires SameShape(g, h) && Reaches(g, a, b)
    ensures Reaches(h, a, b)
  {
    var n: nat :| ReachesIn(g, a, b, n);
    SameRoutes(g, h, a, b, n);
  }

  lemma SameCycles(g: Graph, h: Graph, v: string)
    requires SameShape(g, h)
    ensures OnCycle(g, v) ==> OnCycle(h, v)
  {
    if OnCycle(g, v) {
      var w :| HasEdge(g, v, w) && Reaches(g, w, v);
      SameEdges(g, h, v, w);
      SameReach(g, h, w, v);
    }
  }

  lemma SameVerdict(g: Graph, h: Graph)
    requires SameShape(g, h) && NoEdgeIdMissing(h) && WellFormed(g)
    ensures WellFormed(h)
  {
    hide Triggers, GetNode, Reaches, OnCycle, IsEnd, HasEdge;
    var root := Triggers(g)[0].id;
    forall v | Reaches(h, root, v) ensures !OnCycle(h, v) {
      SameReach(h, g, root, v);
      SameCycles(h, g, v);
    }
    var end :| Reaches(g, root, end) && IsEnd(g, end);
    SameReach(g, h, root, end);
    SameEnds(g, h, end);
    forall e | e in h.edges
      ensures GetNode(h, e.source).Some? && GetNode(h, e.target).Some? && e.source != e.target
    {
      var i :| 0 <= i < |h.edges| && h.edges[i] == e;
      assert g.edges[i] in g.edges;
      SameLookup(g, h, e.source);
      SameLookup(g, h, e.target);
    }
    SameTriggers(g, h);
  }

  lemma SameLookup(g: Graph, h: Graph, id: string)
    requires g.nodes == h.nodes
    ensures GetNode(g, id) == GetNode(h, id)
  {
  }

  lemma SameEnds(g: Graph, h: Graph, id: string)
    requires g.nodes == h.nodes && IsEnd(g, id)
    ensures IsEnd(h, id)
  {
  }

  lemma SameTriggers(g: Graph, h: Graph)
    requires g.nodes == h.nodes
    ensures Triggers(g) == Triggers(h)
  {
  }

  /** Acceptance does not depend on edge ids, as long as there are any: unique or not, it makes no difference. */
  lemma EdgeIdsDoNotMatter(g: Graph, h: Graph)
    requires SameShape(g, h) && NoEdgeIdMissing(g) && NoEdgeIdMissing(h)
    ensures WellFormed(g) <==> WellFormed(h)
  {
    hide WellFormed, NoEdgeIdMissing;
    if WellFormed(g) {
      SameVerdict(g, h);
    }
    if WellFormed(h) {
      SameVerdict(h, g);
    }
  }

  // ---------- a concrete graph ----------

  const START := Node("t", TRIGGER, "start", "")
  const SPLIT := Node("p", PARALLEL, "split", "")
  const STOP := Node("e", END, "stop", "")
  const LEFT := Node("x", "ACTION", "left", "")
  const RIGHT := Node("y", "ACTION", "right", "")

  const ENTER := Edge("1", "t", "p", Always)
  const ONE := Edge("2", "p", "e", Always)
  const OTHER := Edge("2", "p", "e", Always)
  const FORTH := Edge("3", "x", "y", Always)
  const BACK := Edge("4", "y", "x", Always)

  /** A PARALLEL node with two edges to the END, which share an id, and beside it a cycle. */
  const ISLAND := Graph([START, SPLIT, STOP, LEFT, RIGHT], [ENTER, ONE, OTHER, FORTH, BACK])

  lemma IslandNodes(id: string)
    ensures GetNode(ISLAND, id) == if id == "t" then Some(START) else if id == "p" then Some(SPLIT)
                                   else if id == "e" then Some(STOP) else if id == "x" then Some(LEFT)
                                   else if id == "y" then Some(RIGHT) else None
  {
    FindCons(RIGHT, [], id);
    FindCons(LEFT, [RIGHT], id);
    FindCons(STOP, [LEFT, RIGHT], id);
    FindCons(SPLIT, [STOP, LEFT, RIGHT], id);
    FindCons(START, [SPLIT, STOP, LEFT, RIGHT], id);
    assert [RIGHT] + [] == [RIGHT] && [LEFT] + [RIGHT] == [LEFT, RIGHT];
    assert [STOP] + [LEFT, RIGHT] == [STOP, LEFT, RIGHT] && [SPLIT] + [STOP, LEFT, RIGHT] == [SPLIT, STOP, LEFT, RIGHT];
    assert ISLAND.nodes == [START] + [SPLIT, STOP, LEFT, RIGHT];
  }

  lemma {:induction false} FilterFive<T>(a: T, b: T, c: T, d: T, e: T, p: T -> bool)
    ensures Filter([a, b, c, d, e], p) ==
            (if p(a) then [a] else []) + (if p(b) then [b] else []) + (if p(c) then [c] else [])
            + (if p(d) then [d] else []) + (if p(e) then [e] else [])
  {
    hide Filter;
    FilterCons(e, [], p);
    FilterCons(d, [e], p);
    FilterCons(c, [d, e], p);
    FilterCons(b, [c, d, e], p);
    FilterCons(a, [b, c, d, e], p);
    assert [e] + [] == [e] && [d] + [e] == [d, e] && [c] + [d, e] == [c, d, e];
    assert [b] + [c, d, e] == [b, c, d, e] && [a] + [b, c, d, e] == [a, b, c, d, e];
  }

  lemma IslandTriggers()
    ensures Triggers(ISLAND) == [START]
  {
    hide Filter;
    FilterFive(START, SPLIT, STOP, LEFT, RIGHT, (n: Node) => n.kind == TRIGGER);
  }

  lemma IslandIsAcyclicFromTrigger()
    ensures AcyclicFrom(ISLAND, "t")
  {
    hide AcyclicFrom;
    var order := ["e", "p", "t"];
    assert order[..1] == ["e"] && order[..2] == ["e", "p"] && order[2] == "t";
    OrderedIsAcyclic(ISLAND, order, "t");
  }

  lemma IslandReachesEnd()
    ensures ReachesEnd(ISLAND, "t")
  {
    assert ISLAND.edges[0] in ISLAND.edges && ISLAND.edges[1] in ISLAND.edges;
    assert HasEdge(ISLAND, "t", "p") && HasEdge(ISLAND, "p", "e");
    ReachesEdge(ISLAND, "t", "p");
    ReachesEdge(ISLAND, "p", "e");
    ReachesTransitive(ISLAND, "t", "p", "e");
    IslandNodes("e");
    assert IsEnd(ISLAND, "e");
  }

  lemma IslandEdgesAreSound()
    ensures forall e :: e in ISLAND.edges ==>
              e.id != "" && GetNode(ISLAND, e.source).Some? && GetNode(ISLAND, e.target).Some? && e.source != e.target
  {
    hide GetNode;
    IslandNodes("t");
    IslandNodes("p");
    IslandNodes("e");
    IslandNodes("x");
    IslandNodes("y");
  }

  lemma IslandNodesAreSound()
    ensures forall n :: n in ISLAND.nodes ==> n.id != "" && n.kind != ""
    ensures forall i, j :: 0 <= i < j < |ISLAND.nodes| ==> ISLAND.nodes[i].id != ISLAND.nodes[j].id
  {
  }

  lemma IslandIsWellFormed()
    ensures WellFormed(ISLAND)
  {
    hide Triggers, AcyclicFrom, ReachesEnd, GetNode;
    IslandNodesAreSound();
    IslandEdgesAreSound();
    IslandTriggers();
    IslandIsAcyclicFromTrigger();
    IslandReachesEnd();
  }

  lemma IslandHasCycle()
    ensures OnCycle(ISLAND, "x") && !EdgeIdsAreUnique(ISLAND)
  {
    assert ISLAND.edges[3] in ISLAND.edges && ISLAND.edges[4] in ISLAND.edges;
    assert HasEdge(ISLAND, "x", "y") && HasEdge(ISLAND, "y", "x");
    ReachesEdge(ISLAND, "y", "x");
    assert ISLAND.edges[1].id == ISLAND.edges[2].id;
  }

  lemma IslandForks()
    ensures Visitable(ISLAND, "t", SPLIT) && |OutgoingEdges(ISLAND, SPLIT.id)| >= 2
  {
    hide GetNode, Filter;
    IslandNodes("t");
    IslandNodes("p");
    FilterFive(ENTER, ONE, OTHER, FORTH, BACK, (e: Edge) => e.source == "p");
    FirstIsVisitable(ISLAND, START);
    assert ISLAND.edges[0] == ENTER;
    NextIsVisitable(ISLAND, "t", START, ENTER, SPLIT);
  }

  /** The validator accepts `ISLAND`, which has a cycle and two edges with one id, and on which a failure does not
      halt the run. */
  lemma IslandIsAccepted()
    ensures WellFormed(ISLAND) && !IsDag(ISLAND) && !EdgeIdsAreUnique(ISLAND) && !HaltsOnFailure(ISLAND)
  {
    hide WellFormed, HaltsOnFailure, MayFork, Triggers, OnCycle, EdgeIdsAreUnique, OutgoingEdges, Visitable;
    IslandIsWellFormed();
    IslandHasCycle();
    IslandTriggers();
    IslandForks();
    HandledGraphMayFork(ISLAND);
    FailureHaltsIffNoFork(ISLAND);
  }
}
