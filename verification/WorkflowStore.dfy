/** The workflow service: what keeps invalid graphs out of the store and out of the runs. */
module WorkflowStore {
  import opened Collections
  import opened WorkflowGraphs
  import opened GraphValidation
  import opened WorkflowRuns

  datatype WorkflowStatus = DRAFT | ACTIVE | PAUSED | ARCHIVED

  /** `details` stands for name, description, trigger and trigger configuration;
      `deleted` records whether `deletedAt` is set. */
  datatype WorkflowRow = WorkflowRow(org: string, details: string, definition: Graph, version: nat,
                                     status: WorkflowStatus, deleted: bool)

  datatype StoredRun = StoredRun(org: string, row: RunRow)

  datatype Store = Store(workflows: map<string, WorkflowRow>, runs: map<string, StoredRun>)

  /** A definition in a request; `None` is an object without `nodes` and `edges` lists. */
  type Submitted = Option<Graph>

  /** The requests, with the ids that the database picks for new rows, and the writes of the runner. */
  datatype Op =
    | Create(id: string, org: string, details: string, submitted: Option<Submitted>, nodes: Option<seq<Node>>,
             edges: Option<seq<Edge>>)
    | Update(id: string, org: string, newDetails: Option<string>, edit: Option<Submitted>,
             newStatus: Option<WorkflowStatus>)
    | Activate(id: string, org: string)
    | Pause(id: string, org: string)
    | Archive(id: string, org: string)
    | RunWorkflow(id: string, org: string, runId: string)
    | CancelRun(runId: string, org: string)
    | RunnerWrite(runId: string, written: RunRow)

  datatype Answer = Done | NotFound | InvalidGraph | Archived | NotActive

  predicate Found(s: Store, org: string, id: string)
  {
    id in s.workflows && s.workflows[id].org == org && !s.workflows[id].deleted
  }

  function Submission(submitted: Option<Submitted>, nodes: Option<seq<Node>>, edges: Option<seq<Edge>>): Submitted
  {
    if submitted.Some? then submitted.value
    else Some(Graph(if nodes.Some? then nodes.value else [], if edges.Some? then edges.value else []))
  }

  ghost predicate Accepted(g: Submitted)
  {
    g.Some? && WellFormed(g.value)
  }

  /** The rows keep the workflow, version and snapshot that the run was created with. */
  function Rewritten(row: RunRow, written: RunRow): RunRow
  {
    written.(workflowId := row.workflowId, version := row.version, snapshot := row.snapshot)
  }

  function Edited(w: WorkflowRow, details: Option<string>, edit: Option<Submitted>,
                  status: Option<WorkflowStatus>): WorkflowRow
    requires edit.Some? ==> edit.value.Some?
  {
    w.(details := if details.Some? then details.value else w.details,
       definition := if edit.Some? then edit.value.value else w.definition,
       status := if status.Some? then status.value else w.status,
       version := if edit.Some? then w.version + 1 else w.version)
  }

  function PendingRun(w: WorkflowRow, id: string): StoredRun
  {
    StoredRun(w.org, RunRow(id, w.version, Some(w.definition), PENDING, map[], None, None, false))
  }

  /** What each request does to the tables and answers. */
  ghost function Handle(s: Store, op: Op): (Store, Answer)
  {
    match op
    case Create(id, org, details, submitted, nodes, edges) =>
      var g := Submission(submitted, nodes, edges);
      if !Accepted(g) then (s, InvalidGraph)
      else (s.(workflows := s.workflows[id := WorkflowRow(org, details, g.value, 1, DRAFT, false)]), Done)
    case Update(id, org, details, edit, status) =>
      if !Found(s, org, id) then (s, NotFound)
      else if edit.Some? && !Accepted(edit.value) then (s, InvalidGraph)
      else (s.(workflows := s.workflows[id := Edited(s.workflows[id], details, edit, status)]), Done)
    case Activate(id, org) =>
      if !Found(s, org, id) then (s, NotFound)
      else if s.workflows[id].status == ARCHIVED then (s, Archived)
      else if !WellFormed(s.workflows[id].definition) then (s, InvalidGraph)
      else (s.(workflows := s.workflows[id := s.workflows[id].(status := ACTIVE)]), Done)
    case Pause(id, org) =>
      if !Found(s, org, id) then (s, NotFound)
      else if s.workflows[id].status == ARCHIVED then (s, Archived)
      else (s.(workflows := s.workflows[id := s.workflows[id].(status := PAUSED)]), Done)
    case Archive(id, org) =>
      if !Found(s, org, id) then (s, NotFound)
      else (s.(workflows := s.workflows[id := s.workflows[id].(status := ARCHIVED, deleted := true)]), Done)
    case RunWorkflow(id, org, runId) =>
      if !Found(s, org, id) then (s, NotFound)
      else if s.workflows[id].status != ACTIVE then (s, NotActive)
      else (s.(runs := s.runs[runId := PendingRun(s.workflows[id], id)]), Done)
    case CancelRun(runId, org) =>
      if runId !in s.runs || s.runs[runId].org != org then (s, NotFound)
      else (s.(runs := s.runs[runId := s.runs[runId].(row := AfterCancel(s.runs[runId].row))]), Done)
    case RunnerWrite(runId, written) =>
      if runId !in s.runs then (s, NotFound)
      else (s.(runs := s.runs[runId := s.runs[runId].(row := Rewritten(s.runs[runId].row, written))]), Done)
  }

  /** The database never picks an id twice. */
  predicate FreshIds(s: Store, op: Op)
  {
    && (op.Create? ==> op.id !in s.workflows)
    && (op.RunWorkflow? ==> op.runId !in s.runs)
  }

  // ---------- the service ----------

  class Service {
    var workflows: map<string, WorkflowRow>
    var runs: map<string, StoredRun>

    constructor ()
      ensures workflows == map[] && runs == map[]
    {
      workflows, runs := map[], map[];
    }

    ghost function Tables(): Store
      reads this
    {
      Store(workflows, runs)
    }

    /** The row that `get` finds. */
    method Get(org: string, id: string) returns (w: Option<WorkflowRow>)
      ensures w.Some? <==> Found(Tables(), org, id)
      ensures w.Some? <==> id in workflows && workflows[id].org == org && !workflows[id].deleted
      ensures w.Some? ==> w.value == workflows[id]
    {
      if id in workflows && workflows[id].org == org && !workflows[id].deleted {
        return Some(workflows[id]);
      }
      return None;
    }

    method Create(id: string, org: string, details: string, submitted: Option<Submitted>,
                  nodes: Option<seq<Node>>, edges: Option<seq<Edge>>) returns (answer: Answer, flaws: seq<Flaw>)
      modifies this
      ensures (Tables(), answer) == Handle(old(Tables()), Op.Create(id, org, details, submitted, nodes, edges))
      ensures runs == old(runs) && answer in {Done, InvalidGraph}
      ensures answer == InvalidGraph ==> workflows == old(workflows)
      ensures answer == Done ==>
                && workflows == old(workflows)[id := WorkflowRow(org, details, workflows[id].definition, 1,
                                                                 DRAFT, false)]
                && WellFormed(workflows[id].definition)
                && (submitted.Some? ==> submitted.value == Some(workflows[id].definition))
                && (submitted.None? ==>
                      && workflows[id].definition.nodes == (if nodes.Some? then nodes.value else [])
                      && workflows[id].definition.edges == (if edges.Some? then edges.value else []))
      ensures flaws != [] <==> answer == InvalidGraph
    {
      hide WellFormed, Cause;
      var g := Submission(submitted, nodes, edges);
      var ok;
      ok, flaws := ValidateGraph(g);
      if !ok {
        return InvalidGraph, flaws;
      }
      workflows := workflows[id := WorkflowRow(org, details, g.value, 1, DRAFT, false)];
      return Done, [];
    }

    method Update(id: string, org: string, details: Option<string>, edit: Option<Submitted>,
                  status: Option<WorkflowStatus>)
      returns (answer: Answer, flaws: seq<Flaw>)
      modifies this
      ensures (Tables(), answer) == Handle(old(Tables()), Op.Update(id, org, details, edit, status))
      ensures runs == old(runs) && (answer != Done ==> workflows == old(workflows))
      ensures answer == NotFound <==> !Found(old(Tables()), org, id)
      ensures answer == InvalidGraph <==>
                answer != NotFound && edit.Some? && (edit.value.None? || !WellFormed(edit.value.value))
      ensures answer == Done ==>
                var w := old(workflows)[id];
                workflows == old(workflows)[id := WorkflowRow(
                    w.org, if details.Some? then details.value else w.details,
                    if edit.Some? then edit.value.value else w.definition,
                    if edit.Some? then w.version + 1 else w.version,
                    if status.Some? then status.value else w.status, w.deleted)]
      ensures flaws != [] <==> answer == InvalidGraph
    {
      hide WellFormed, Cause;
      flaws := [];
      var w := Get(org, id);
      if w.None? {
        return NotFound, [];
      }
      if edit.Some? {
        var ok;
        ok, flaws := ValidateGraph(edit.value);
        if !ok {
          return InvalidGraph, flaws;
        }
      }
      workflows := workflows[id := Edited(w.value, details, edit, status)];
      return Done, [];
    }

    method Activate(id: string, org: string) returns (answer: Answer, flaws: seq<Flaw>)
      modifies this
      ensures (Tables(), answer) == Handle(old(Tables()), Op.Activate(id, org))
      ensures answer == if !Found(old(Tables()), org, id) then NotFound
                        else if old(workflows)[id].status == ARCHIVED then Archived
                        else if !WellFormed(old(workflows)[id].definition) then InvalidGraph else Done
      ensures runs == old(runs) && (answer != Done ==> workflows == old(workflows))
      ensures answer == Done ==> workflows == old(workflows)[id := old(workflows)[id].(status := ACTIVE)]
      ensures flaws != [] <==> answer == InvalidGraph
    {
      hide WellFormed, Cause;
      var w := Get(org, id);
      if w.None? {
        return NotFound, [];
      }
      if w.value.status == ARCHIVED || w.value.deleted {
        return Archived, [];
      }
      var ok;
      ok, flaws := ValidateGraph(Some(w.value.definition));
      if !ok {
        return InvalidGraph, flaws;
      }
      workflows := workflows[id := w.value.(status := ACTIVE)];
      return Done, [];
    }

    method Pause(id: string, org: string) returns (answer: Answer)
      modifies this
      ensures (Tables(), answer) == Handle(old(Tables()), Op.Pause(id, org))
      ensures answer == if !Found(old(Tables()), org, id) then NotFound
                        else if old(workflows)[id].status == ARCHIVED then Archived else Done
      ensures runs == old(runs) && (answer != Done ==> workflows == old(workflows))
      ensures answer == Done ==> workflows == old(workflows)[id := old(workflows)[id].(status := PAUSED)]
    {
      var w := Get(org, id);
      if w.None? {
        return NotFound;
      }
      if w.value.status == ARCHIVED || w.value.deleted {
        return Archived;
      }
      workflows := workflows[id := w.value.(status := PAUSED)];
      return Done;
    }

    method Archive(id: string, org: string) returns (answer: Answer)
      modifies this
      ensures (Tables(), answer) == Handle(old(Tables()), Op.Archive(id, org))
      ensures answer == if Found(old(Tables()), org, id) then Done else NotFound
      ensures runs == old(runs) && (answer != Done ==> workflows == old(workflows))
      ensures answer == Done ==>
                workflows == old(workflows)[id := old(workflows)[id].(status := ARCHIVED, deleted := true)]
    {
      var w := Get(org, id);
      if w.None? {
        return NotFound;
      }
      workflows := workflows[id := w.value.(status := ARCHIVED, deleted := true)];
      return Done;
    }

    method RunWorkflow(id: string, org: string, runId: string) returns (answer: Answer)
      modifies this
      ensures (Tables(), answer) == Handle(old(Tables()), Op.RunWorkflow(id, org, runId))
      ensures answer == if !Found(old(Tables()), org, id) then NotFound
                        else if old(workflows)[id].status != ACTIVE then NotActive else Done
      ensures workflows == old(workflows) && (answer != Done ==> runs == old(runs))
      ensures answer == Done ==>
                var w := workflows[id];
                runs == old(runs)[runId := StoredRun(org, RunRow(id, w.version, Some(w.definition), PENDING, map[],
                                                                 None, None, false))]
    {
      var w := Get(org, id);
      if w.None? {
        return NotFound;
      }
      if w.value.status != ACTIVE {
        return NotActive;
      }
      runs := runs[runId := PendingRun(w.value, id)];
      return Done;
    }

    method CancelRun(runId: string, org: string) returns (answer: Answer)
      modifies this
      ensures (Tables(), answer) == Handle(old(Tables()), Op.CancelRun(runId, org))
      ensures answer == if runId in old(runs) && old(runs)[runId].org == org then Done else NotFound
      ensures workflows == old(workflows) && (answer != Done ==> runs == old(runs))
      ensures answer == Done ==>
                var row := old(runs)[runId].row;
                runs == if row.status in {COMPLETED, FAILED, CANCELLED} then old(runs)
                        else old(runs)[runId := StoredRun(org, row.(status := CANCELLED, completedAt := true))]
    {
      if runId !in runs || runs[runId].org != org {
        return NotFound;
      }
      var run := runs[runId];
      if run.row.status == COMPLETED || run.row.status == FAILED || run.row.status == CANCELLED {
        assert runs == runs[runId := run];
        return Done;
      }
      runs := runs[runId := run.(row := Cancelled(run.row))];
      return Done;
    }
  }

  // ---------- every sequence of requests ----------

  /** Every definition that was ever accepted for each workflow, oldest first. */
  type Published = map<string, seq<Graph>>

  ghost function Publish(s: Store, pub: Published, op: Op): Published
  {
    var (t, answer) := Handle(s, op);
    if answer != Done then pub
    else if op.Create? then pub[op.id := [t.workflows[op.id].definition]]
    else if op.Update? && op.edit.Some? && op.id in pub then pub[op.id := pub[op.id] + [t.workflows[op.id].definition]]
    else pub
  }

  /** The version of a row counts the definitions accepted for it, and a run holds the definition that its
      version numbers. */
  ghost predicate Consistent(s: Store, pub: Published)
  {
    && (forall id :: id in s.workflows <==> id in pub)
    && (forall id :: id in pub ==> HasHistory(s.workflows[id], pub[id]))
    && (forall r :: r in s.runs ==> FromHistory(s.runs[r].row, pub))
  }

  ghost predicate HasHistory(w: WorkflowRow, definitions: seq<Graph>)
  {
    && w.version == |definitions| > 0
    && w.definition == definitions[w.version - 1]
    && (w.deleted ==> w.status == ARCHIVED)
  }

  ghost predicate FromHistory(row: RunRow, pub: Published)
  {
    && row.workflowId in pub
    && 1 <= row.version <= |pub[row.workflowId]|
    && row.snapshot == Some(pub[row.workflowId][row.version - 1])
  }

  ghost predicate AllWellFormed(pub: Published)
  {
    forall id :: id in pub ==> forall i :: 0 <= i < |pub[id]| ==> WellFormed(pub[id][i])
  }

  /** Only well-formed definitions are ever accepted. */
  lemma OpKeepsWellFormed(s: Store, pub: Published, op: Op)
    requires AllWellFormed(pub)
    ensures AllWellFormed(Publish(s, pub, op))
  {
    hide WellFormed;
  }

  lemma PutWorkflow(s: Store, pub: Published, id: string, w: WorkflowRow, history: seq<Graph>)
    requires Consistent(s, pub) && HasHistory(w, history)
    requires id in pub ==> |pub[id]| <= |history| && pub[id] == history[..|pub[id]|]
    ensures Consistent(s.(workflows := s.workflows[id := w]), pub[id := history])
  {
    hide HasHistory;
    var extended := pub[id := history];
    forall r | r in s.runs
      ensures FromHistory(s.runs[r].row, extended)
    {
      assert FromHistory(s.runs[r].row, pub);
    }
  }

  lemma WorkflowOpKeepsConsistent(s: Store, pub: Published, op: Op, id: string)
    requires Consistent(s, pub) && FreshIds(s, op)
    requires !op.RunWorkflow? && !op.CancelRun? && !op.RunnerWrite? && id == op.id
    ensures Consistent(Handle(s, op).0, Publish(s, pub, op))
  {
    hide WellFormed, FromHistory;
    if Handle(s, op).1 != Done {
      return;
    }
    var w := Handle(s, op).0.workflows[id];
    if op.Create? {
      PutWorkflow(s, pub, id, w, [w.definition]);
    } else {
      assert HasHistory(s.workflows[id], pub[id]);
      if op.Update? && op.edit.Some? {
        PutWorkflow(s, pub, id, w, pub[id] + [w.definition]);
      } else {
        PutWorkflow(s, pub, id, w, pub[id]);
        assert pub[id := pub[id]] == pub;
      }
    }
  }

  lemma RunOpKeepsConsistent(s: Store, pub: Published, op: Op, r: string)
    requires Consistent(s, pub) && FreshIds(s, op)
    requires (op.RunWorkflow? || op.CancelRun? || op.RunnerWrite?) && r == op.runId
    ensures Consistent(Handle(s, op).0, Publish(s, pub, op))
  {
    hide WellFormed;
    if Handle(s, op).1 != Done {
      return;
    }
    if op.RunWorkflow? {
      assert HasHistory(s.workflows[op.id], pub[op.id]);
    } else {
      assert FromHistory(s.runs[r].row, pub);
    }
  }

  /** The requests are handled one after the other; ids picked by the database are fresh. */
  ghost function HandleAll(s: Store, ops: seq<Op>): Store
    decreases |ops|
  {
    if ops == [] then s else HandleAll(Handle(s, ops[0]).0, ops[1..])
  }

  ghost function PublishAll(s: Store, pub: Published, ops: seq<Op>): Published
    decreases |ops|
  {
    if ops == [] then pub else PublishAll(Handle(s, ops[0]).0, Publish(s, pub, ops[0]), ops[1..])
  }

  ghost predicate AllFresh(s: Store, ops: seq<Op>)
    decreases |ops|
  {
    ops == [] || (FreshIds(s, ops[0]) && AllFresh(Handle(s, ops[0]).0, ops[1..]))
  }

  const EMPTY := Store(map[], map[])

  lemma {:induction false} HistoryIsConsistent(s: Store, pub: Published, ops: seq<Op>)
    requires Consistent(s, pub) && AllWellFormed(pub) && AllFresh(s, ops)
    ensures Consistent(HandleAll(s, ops), PublishAll(s, pub, ops)) && AllWellFormed(PublishAll(s, pub, ops))
    decreases |ops|
  {
    hide Consistent, AllWellFormed, Handle, Publish, FreshIds;
    if ops != [] {
      var op := ops[0];
      if op.RunWorkflow? || op.CancelRun? || op.RunnerWrite? {
        RunOpKeepsConsistent(s, pub, op, op.runId);
      } else {
        WorkflowOpKeepsConsistent(s, pub, op, op.id);
      }
      OpKeepsWellFormed(s, pub, ops[0]);
      HistoryIsConsistent(Handle(s, ops[0]).0, Publish(s, pub, ops[0]), ops[1..]);
    }
  }

  /** In every history: each stored definition is well-formed, each run's snapshot is well-formed, and two
      runs of one workflow at one version have the same snapshot. */
  lemma VersionDeterminesSnapshot(ops: seq<Op>)
    requires AllFresh(EMPTY, ops)
    ensures var s := HandleAll(EMPTY, ops);
            && (forall id :: id in s.workflows ==> WellFormed(s.workflows[id].definition))
            && (forall r :: r in s.runs ==> s.runs[r].row.snapshot.Some? && WellFormed(s.runs[r].row.snapshot.value))
            && (forall q, r :: q in s.runs && r in s.runs
                  && s.runs[q].row.workflowId == s.runs[r].row.workflowId
                  && s.runs[q].row.version == s.runs[r].row.version
                  ==> s.runs[q].row.snapshot == s.runs[r].row.snapshot)
  {
    hide WellFormed, HandleAll, PublishAll;
    HistoryIsConsistent(EMPTY, map[], ops);
    var s, pub := HandleAll(EMPTY, ops), PublishAll(EMPTY, map[], ops);
    forall id | id in s.workflows
      ensures WellFormed(s.workflows[id].definition)
    {
      assert HasHistory(s.workflows[id], pub[id]);
    }
    forall r | r in s.runs
      ensures FromHistory(s.runs[r].row, pub) && WellFormed(s.runs[r].row.snapshot.value)
    {
      assert FromHistory(s.runs[r].row, pub);
      var w := s.runs[r].row.workflowId;
      assert HasHistory(s.workflows[w], pub[w]);
    }
  }

  /** How many edits of the definition of `id` are accepted. */
  ghost function AcceptedEdits(s: Store, ops: seq<Op>, id: string): nat
    decreases |ops|
  {
    if ops == [] then 0
    else
      (if ops[0].Update? && ops[0].id == id && ops[0].edit.Some? && Handle(s, ops[0]).1 == Done then 1 else 0)
      + AcceptedEdits(Handle(s, ops[0]).0, ops[1..], id)
  }

  /** From its creation on, a workflow's version grows by exactly the number of accepted definition edits. */
  lemma {:induction false} VersionCountsEdits(s: Store, ops: seq<Op>, id: string)
    requires id in s.workflows && AllFresh(s, ops)
    ensures id in HandleAll(s, ops).workflows
    ensures HandleAll(s, ops).workflows[id].version == s.workflows[id].version + AcceptedEdits(s, ops, id)
    decreases |ops|
  {
    hide WellFormed;
    if ops != [] {
      VersionCountsEdits(Handle(s, ops[0]).0, ops[1..], id);
    }
  }

  lemma {:induction false} VersionCountsFromCreation(s: Store, ops: seq<Op>, id: string)
    requires id !in s.workflows && AllFresh(s, ops) && id in HandleAll(s, ops).workflows
    ensures HandleAll(s, ops).workflows[id].version == 1 + AcceptedEdits(s, ops, id)
    decreases |ops|
  {
    hide WellFormed;
    if ops != [] {
      var t := Handle(s, ops[0]).0;
      if id in t.workflows {
        VersionCountsEdits(t, ops[1..], id);
      } else {
        VersionCountsFromCreation(t, ops[1..], id);
      }
    }
  }

  /** In every history the version of a workflow is one more than the number of accepted edits of its definition. */
  lemma VersionIsOnePlusEdits(ops: seq<Op>, id: string)
    requires AllFresh(EMPTY, ops) && id in HandleAll(EMPTY, ops).workflows
    ensures HandleAll(EMPTY, ops).workflows[id].version == 1 + AcceptedEdits(EMPTY, ops, id)
  {
    VersionCountsFromCreation(EMPTY, ops, id);
  }

  /** A definition that got into the store never fails validation again when it is activated. */
  lemma ActivateNeverFindsInvalidGraph(ops: seq<Op>, id: string, org: string)
    requires AllFresh(EMPTY, ops)
    ensures Handle(HandleAll(EMPTY, ops), Activate(id, org)).1 != InvalidGraph
  {
    hide WellFormed, HandleAll;
    VersionDeterminesSnapshot(ops);
  }

  // ---------- deletion ----------

  ghost function RunsOf(s: Store, id: string): set<string>
  {
    set r | r in s.runs && s.runs[r].row.workflowId == id
  }

  lemma DeletedIsSkipped(s: Store, op: Op, id: string)
    requires id in s.workflows && s.workflows[id].deleted && FreshIds(s, op)
    ensures var t := Handle(s, op).0;
            id in t.workflows && t.workflows[id] == s.workflows[id] && RunsOf(t, id) == RunsOf(s, id)
  {
    hide WellFormed;
  }

  /** Once `deletedAt` is set, no request changes the workflow or starts a run of it. */
  lemma {:induction false} DeletedIsFrozen(s: Store, ops: seq<Op>, id: string)
    requires id in s.workflows && s.workflows[id].deleted && AllFresh(s, ops)
    ensures var t := HandleAll(s, ops);
            id in t.workflows && t.workflows[id] == s.workflows[id] && RunsOf(t, id) == RunsOf(s, id)
    decreases |ops|
  {
    hide Handle, RunsOf, FreshIds;
    if ops != [] {
      DeletedIsSkipped(s, ops[0], id);
      DeletedIsFrozen(Handle(s, ops[0]).0, ops[1..], id);
    }
  }

  /** Some sequence of requests starts a run of the workflow. */
  ghost predicate CanRunAgain(s: Store, id: string)
  {
    exists ops :: AllFresh(s, ops) && RunsOf(HandleAll(s, ops), id) != RunsOf(s, id)
  }

  /** ARCHIVED is only final for a deleted workflow: `update` may set the status back, so a workflow that
      `update` archived, and that `activate` refuses, can still run again. */
  lemma ArchivedCanRunAgainIffNotDeleted(s: Store, id: string, runId: string)
    requires id in s.workflows && s.workflows[id].status == ARCHIVED && runId !in s.runs
    ensures Handle(s, Activate(id, s.workflows[id].org)).1 in {Archived, NotFound}
    ensures CanRunAgain(s, id) <==> !s.workflows[id].deleted
  {
    hide WellFormed, RunsOf;
    if s.workflows[id].deleted {
      forall ops | AllFresh(s, ops)
        ensures RunsOf(HandleAll(s, ops), id) == RunsOf(s, id)
      {
        DeletedIsFrozen(s, ops, id);
      }
    } else {
      UpdateThenRun(s, id, runId);
    }
  }

  lemma UpdateThenRun(s: Store, id: string, runId: string)
    requires id in s.workflows && !s.workflows[id].deleted && runId !in s.runs
    ensures CanRunAgain(s, id)
  {
    hide WellFormed;
    var org := s.workflows[id].org;
    var ops := [Update(id, org, None, None, Some(ACTIVE)), RunWorkflow(id, org, runId)];
    var t := Handle(s, ops[0]).0;
    var u := Handle(t, ops[1]).0;
    assert ops[1..] == [ops[1]] && ops[1..][1..] == [];
    assert HandleAll(t, [ops[1]]) == u && AllFresh(t, [ops[1]]);
    assert HandleAll(s, ops) == u && AllFresh(s, ops);
    assert runId in RunsOf(u, id) && runId !in RunsOf(s, id);
  }
}
