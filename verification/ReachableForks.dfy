/** Which nodes of a graph a run can get past, and from which of them it can come to a fork. */
module ReachableForks {
  import opened Collections
  import opened WorkflowGraphs
  import opened WorkflowWalk

  predicate HasHandler(g: Graph, id: string)
  {
    GetNode(g, id).Some? && GetNode(g, id).value.kind in HANDLED
  }

  /** A PARALLEL node with two or more outgoing edges, at least one of them to a node that has a handler. */
  predicate Splits(g: Graph, v: Node)
  {
    && v.kind == PARALLEL && |OutgoingEdges(g, v.id)| >= 2
    && exists e :: e in g.edges && e.source == v.id && HasHandler(g, e.target)
  }

  /** An edge that matches whenever `e` does: it has no condition or the same one. */
  predicate Forced(f: Edge, e: Edge)
  {
    f.condition.Always? || f.condition == e.condition
  }

  /** Some walk from the node can succeed: the node and all that it cannot help visiting have handlers. */
  ghost predicate Passes(g: Graph, ranks: Ranks, id: string)
    requires Layered(g, ranks) && id in ranks
    decreases ranks[id]
  {
    && HasHandler(g, id)
    && (IsEnd(g, id) ||
        forall e :: e in g.edges && e.source == id && e.condition.Always? ==> Passes(g, ranks, e.target))
  }

  /** Some walk from the node comes to a fork: at the node itself, or below an edge all of whose forced
      predecessors a run can get past. */
  ghost predicate CanFork(g: Graph, ranks: Ranks, id: string)
    requires Layered(g, ranks) && id in ranks
    decreases ranks[id]
  {
    && HasHandler(g, id) && !IsEnd(g, id)
    && (Splits(g, GetNode(g, id).value) || exists k :: LeadsToFork(g, ranks, id, k))
  }

  ghost predicate LeadsToFork(g: Graph, ranks: Ranks, id: string, k: int)
    requires Layered(g, ranks) && id in ranks
    decreases ranks[id], 0
  {
    && 0 <= k < |g.edges| && g.edges[k].source == id && CanFork(g, ranks, g.edges[k].target)
    && forall j :: 0 <= j < k && g.edges[j].source == id && Forced(g.edges[j], g.edges[k]) ==>
         Passes(g, ranks, g.edges[j].target)
  }

  ghost predicate RankedNodes(g: Graph, ranks: Ranks, nodes: seq<Node>)
  {
    forall x :: x in nodes ==> x in g.nodes && x.id in ranks
  }

  ghost predicate AllPass(g: Graph, ranks: Ranks, nodes: seq<Node>)
    requires Layered(g, ranks) && RankedNodes(g, ranks, nodes)
  {
    forall x :: x in nodes ==> Passes(g, ranks, x.id)
  }

  /** A run that walks the nodes in turn comes to no fork: each that could fork is behind one that cannot be passed. */
  ghost predicate NoForkIn(g: Graph, ranks: Ranks, nodes: seq<Node>)
    requires Layered(g, ranks) && RankedNodes(g, ranks, nodes)
  {
    forall i :: 0 <= i < |nodes| && CanFork(g, ranks, nodes[i].id) ==>
      exists j :: 0 <= j < i && !Passes(g, ranks, nodes[j].id)
  }

  /** Ids find their nodes, and no edge dangles. */
  ghost predicate Intact(g: Graph)
  {
    && (forall node :: node in g.nodes ==> GetNode(g, node.id) == Some(node))
    && (forall e :: e in g.edges ==> GetNode(g, e.target).Some?)
  }

  // ---------- the nodes that follow ----------

  /** The nodes that the chosen ones of the edges lead to from `id`. */
  function Followed(g: Graph, es: seq<Edge>, id: string, chosen: Edge -> bool): seq<Node>
  {
    Successors(g, Filter(Filter(es, (e: Edge) => e.source == id), chosen))
  }

  lemma FollowedFirst(g: Graph, e: Edge, es: seq<Edge>, id: string, chosen: Edge -> bool)
    requires GetNode(g, e.target).Some?
    ensures Followed(g, [e] + es, id, chosen) ==
            (if e.source == id && chosen(e) then [GetNode(g, e.target).value] else []) + Followed(g, es, id, chosen)
  {
    var leaving := (e: Edge) => e.source == id;
    FilterCons(e, es, leaving);
    var out := Filter(es, leaving);
    assert [] + out == out;
    FilterCons(e, out, chosen);
    var kept := Filter(out, chosen);
    assert [] + kept == kept && ([e] + kept)[1..] == kept;
    assert [] + Successors(g, kept) == Successors(g, kept);
  }

  /** The edge that a following node comes from; the chosen edges before it lead to nodes that come earlier. */
  lemma {:induction false} EdgeOf(g: Graph, es: seq<Edge>, id: string, chosen: Edge -> bool, i: nat) returns (k: nat)
    requires (forall e :: e in es ==> GetNode(g, e.target).Some?) && i < |Followed(g, es, id, chosen)|
    ensures k < |es| && es[k].source == id && chosen(es[k]) && es[k].target == Followed(g, es, id, chosen)[i].id
    ensures forall j :: 0 <= j < k && es[j].source == id && chosen(es[j]) ==>
              exists h :: 0 <= h < i && Followed(g, es, id, chosen)[h].id == es[j].target
  {
    hide Followed;
    if es == [] {
      assert Followed(g, es, id, chosen) == [] by { NoneFollowed(g, id, chosen); }
    } else {
      var e, rest := es[0], es[1..];
      assert es == [e] + rest && e in es;
      FollowedFirst(g, e, rest, id, chosen);
      var all, others := Followed(g, es, id, chosen), Followed(g, rest, id, chosen);
      if e.source == id && chosen(e) {
        if i == 0 {
          k := 0;
        } else {
          var l := EdgeOf(g, rest, id, chosen, i - 1);
          k := l + 1;
          forall j | 0 <= j < k && es[j].source == id && chosen(es[j])
            ensures exists h :: 0 <= h < i && all[h].id == es[j].target
          {
            if j == 0 {
              assert all[0].id == e.target;
            } else {
              var h :| 0 <= h < i - 1 && others[h].id == rest[j - 1].target;
              assert all[h + 1] == others[h];
            }
          }
        }
      } else {
        var l := EdgeOf(g, rest, id, chosen, i);
        k := l + 1;
        assert all == others;
        forall j | 0 <= j < k && es[j].source == id && chosen(es[j])
          ensures exists h :: 0 <= h < i && all[h].id == es[j].target
        {
          assert es[j] == rest[j - 1];
        }
      }
    }
  }

  lemma NoneFollowed(g: Graph, id: string, chosen: Edge -> bool)
    ensures Followed(g, [], id, chosen) == []
  {
  }

  /** Where the target of a chosen edge comes; the nodes before it are targets of chosen edges before the edge. */
  lemma {:induction false} NodeOf(g: Graph, es: seq<Edge>, id: string, chosen: Edge -> bool, k: nat) returns (i: nat)
    requires (forall e :: e in es ==> GetNode(g, e.target).Some?) && k < |es| && es[k].source == id && chosen(es[k])
    ensures i < |Followed(g, es, id, chosen)| && Followed(g, es, id, chosen)[i].id == es[k].target
    ensures forall h :: 0 <= h < i ==>
              exists j :: 0 <= j < k && es[j].source == id && chosen(es[j])
                          && es[j].target == Followed(g, es, id, chosen)[h].id
  {
    hide Followed;
    var e, rest := es[0], es[1..];
    assert es == [e] + rest && e in es;
    FollowedFirst(g, e, rest, id, chosen);
    var all, others := Followed(g, es, id, chosen), Followed(g, rest, id, chosen);
    if k == 0 {
      i := 0;
    } else {
      var l := NodeOf(g, rest, id, chosen, k - 1);
      var d := if e.source == id && chosen(e) then 1 else 0;
      i := l + d;
      forall h | 0 <= h < i
        ensures exists j :: 0 <= j < k && es[j].source == id && chosen(es[j]) && es[j].target == all[h].id
      {
        if h < d {
          assert all[0].id == es[0].target;
        } else {
          assert all[h] == others[h - d];
          var j :| 0 <= j < k - 1 && rest[j].source == id && chosen(rest[j]) && rest[j].target == others[h - d].id;
          assert es[j + 1] == rest[j];
        }
      }
    }
  }

  // ---------- what leaving a node does ----------

  /** Edges without a condition are always chosen, and edges with the same condition together. */
  ghost predicate ByCondition(chosen: Edge -> bool)
  {
    && (forall e: Edge :: e.condition.Always? ==> chosen(e))
    && (forall e: Edge, f: Edge :: e.condition == f.condition ==> chosen(e) == chosen(f))
  }

  lemma FollowedAreRanked(g: Graph, ranks: Ranks, id: string, chosen: Edge -> bool)
    requires Layered(g, ranks) && Intact(g) && id in ranks
    ensures RankedNodes(g, ranks, Followed(g, g.edges, id, chosen))
  {
    hide Followed;
    var next := Followed(g, g.edges, id, chosen);
    forall x | x in next
      ensures x in g.nodes && x.id in ranks
    {
      var i :| 0 <= i < |next| && next[i] == x;
      var k := EdgeOf(g, g.edges, id, chosen, i);
      assert g.edges[k] in g.edges;
      FollowedInGraph(g, g.edges, id, chosen, x);
    }
  }

  lemma FollowedInGraph(g: Graph, es: seq<Edge>, id: string, chosen: Edge -> bool, x: Node)
    requires x in Followed(g, es, id, chosen)
    ensures x in g.nodes
  {
    SuccessorIsTarget(g, Filter(Filter(es, (e: Edge) => e.source == id), chosen), x);
  }

  /** From a node that cannot fork, the nodes that follow do not fork either. */
  lemma NoForkAfter(g: Graph, ranks: Ranks, node: Node, chosen: Edge -> bool)
    requires Layered(g, ranks) && Intact(g) && node in g.nodes && node.id in ranks && ByCondition(chosen)
    requires node.kind in HANDLED && node.kind != END && !CanFork(g, ranks, node.id)
    ensures var next := Followed(g, g.edges, node.id, chosen);
            RankedNodes(g, ranks, next) && NoForkIn(g, ranks, next)
  {
    hide Followed, Passes;
    FollowedAreRanked(g, ranks, node.id, chosen);
    var next := Followed(g, g.edges, node.id, chosen);
    forall i | 0 <= i < |next| && CanFork(g, ranks, next[i].id)
      ensures exists h :: 0 <= h < i && !Passes(g, ranks, next[h].id)
    {
      var k := EdgeOf(g, g.edges, node.id, chosen, i);
      assert !LeadsToFork(g, ranks, node.id, k);
      var j :| 0 <= j < k && g.edges[j].source == node.id && Forced(g.edges[j], g.edges[k])
               && !Passes(g, ranks, g.edges[j].target);
      var h :| 0 <= h < i && next[h].id == g.edges[j].target;
    }
  }

  /** A PARALLEL node that does not split has only branches without a handler. */
  lemma NoHandlerAfter(g: Graph, node: Node, chosen: Edge -> bool)
    requires Intact(g) && !Splits(g, node) && node.kind == PARALLEL
    requires |Filter(OutgoingEdges(g, node.id), chosen)| > 1
    ensures forall x :: x in Followed(g, g.edges, node.id, chosen) ==> x.kind !in HANDLED
  {
    FilterNotLonger(OutgoingEdges(g, node.id), chosen);
    var next := Followed(g, g.edges, node.id, chosen);
    forall x | x in next
      ensures x.kind !in HANDLED
    {
      hide Followed;
      var i :| 0 <= i < |next| && next[i] == x;
      var k := EdgeOf(g, g.edges, node.id, chosen, i);
      assert g.edges[k] in g.edges;
      FollowedInGraph(g, g.edges, node.id, chosen, x);
    }
  }

  /** From a node that cannot be passed, some node that cannot be passed follows. */
  lemma BlockAfter(g: Graph, ranks: Ranks, node: Node, chosen: Edge -> bool)
    requires Layered(g, ranks) && Intact(g) && node in g.nodes && node.id in ranks && ByCondition(chosen)
    requires node.kind in HANDLED && !Passes(g, ranks, node.id)
    ensures node.kind != END
    ensures RankedNodes(g, ranks, Followed(g, g.edges, node.id, chosen))
    ensures exists x :: x in Followed(g, g.edges, node.id, chosen) && !Passes(g, ranks, x.id)
  {
    hide Followed;
    FollowedAreRanked(g, ranks, node.id, chosen);
    var e :| e in g.edges && e.source == node.id && e.condition.Always? && !Passes(g, ranks, e.target);
    var k :| 0 <= k < |g.edges| && g.edges[k] == e;
    var i := NodeOf(g, g.edges, node.id, chosen, k);
    assert Followed(g, g.edges, node.id, chosen)[i] in Followed(g, g.edges, node.id, chosen);
  }

  // ---------- directing a run ----------

  /** Which conditions are to hold: none, the one, or all. */
  datatype Choice = Off | Only(expression: string) | All

  function Chosen(c: Choice): Edge -> bool
  {
    (e: Edge) => e.condition.Always? || c.All? || c == Only(e.condition.expression)
  }

  /** When no condition holds, only nodes that can be passed follow. */
  lemma PassAfter(g: Graph, ranks: Ranks, node: Node)
    requires Layered(g, ranks) && Intact(g) && node in g.nodes && node.id in ranks
    requires Passes(g, ranks, node.id) && node.kind != END
    ensures RankedNodes(g, ranks, Followed(g, g.edges, node.id, Chosen(Off)))
    ensures forall x :: x in Followed(g, g.edges, node.id, Chosen(Off)) ==> Passes(g, ranks, x.id)
  {
    hide Followed;
    var next := Followed(g, g.edges, node.id, Chosen(Off));
    FollowedAreRanked(g, ranks, node.id, Chosen(Off));
    forall x | x in next
      ensures Passes(g, ranks, x.id)
    {
      var i :| 0 <= i < |next| && next[i] == x;
      var k := EdgeOf(g, g.edges, node.id, Chosen(Off), i);
      assert g.edges[k] in g.edges;
    }
  }

  /** With this choice of conditions the node forks, or a node that can fork follows behind nodes that can be passed. */
  ghost predicate Directs(g: Graph, ranks: Ranks, node: Node, c: Choice)
    requires Layered(g, ranks)
  {
    var next := Followed(g, g.edges, node.id, Chosen(c));
    && node.kind in HANDLED && node.kind != END && RankedNodes(g, ranks, next)
    && ((Splits(g, node) && c == All) || !NoForkIn(g, ranks, next))
  }

  lemma SomeChoiceDirects(g: Graph, ranks: Ranks, node: Node) returns (c: Choice)
    requires Layered(g, ranks) && Intact(g) && node in g.nodes && node.id in ranks && CanFork(g, ranks, node.id)
    ensures Directs(g, ranks, node, c)
  {
    hide Followed, Passes, Splits;
    if Splits(g, node) {
      c := All;
      FollowedAreRanked(g, ranks, node.id, Chosen(c));
    } else {
      var k :| LeadsToFork(g, ranks, node.id, k);
      var e := g.edges[k];
      c := if e.condition.Always? then Off else Only(e.condition.expression);
      FollowedAreRanked(g, ranks, node.id, Chosen(c));
      var next := Followed(g, g.edges, node.id, Chosen(c));
      var i := NodeOf(g, g.edges, node.id, Chosen(c), k);
      forall h | 0 <= h < i
        ensures Passes(g, ranks, next[h].id)
      {
        var j :| 0 <= j < k && g.edges[j].source == node.id && Chosen(c)(g.edges[j])
                 && g.edges[j].target == next[h].id;
        assert Forced(g.edges[j], e);
      }
      assert CanFork(g, ranks, next[i].id);
    }
  }
}
