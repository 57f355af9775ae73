/** How every run of independent branches ends: as the walk in declaration order says. */
module DeclaredRuns {
  import opened Collections
  import opened WorkflowGraphs
  import opened WorkflowWalk
  import opened WorkflowRuns
  import opened WorkflowRunner
  import opened WorkflowMachine
  import opened BranchFootprints
  import opened RunLifecycle
  import DeclarationOrder
  import Confluence

  // ---------- the schedule inside a history ----------

  function Picks(evs: seq<Event>): seq<Pick>
  {
    if evs == [] then []
    else if evs[0].Move? then [evs[0].pick] + Picks(evs[1..])
    else Picks(evs[1..])
  }

  /** Once the walk has begun, only the moves of the branches touch the machine. */
  lemma {:induction false} HistoryIsSchedule(env: Env, s: System, evs: seq<Event>)
    requires s.phase != Starting && History(env, s, evs).Some?
    ensures Execute(env, s.machine, Picks(evs)) == Some(History(env, s, evs).value.machine)
    decreases |evs|
  {
    hide Step, Resolved, FindTrigger, Errors;
    if evs != [] {
      HistoryIsSchedule(env, Perform(env, s, evs[0]).value, evs[1..]);
      if evs[0].Move? {
        assert Picks(evs)[0] == evs[0].pick && Picks(evs)[1..] == Picks(evs[1..]);
      }
    }
  }

  /** The machine of a run that found its trigger is the outcome of the schedule of its moves. */
  lemma {:induction false} RunIsSchedule(env: Env, s: System, trigger: Node, evs: seq<Event>)
    requires FindTrigger(env.graph.nodes) == Some(trigger) && s.phase == Starting && History(env, s, evs).Some?
    ensures var t := History(env, s, evs).value;
            t.phase != Starting ==>
              Execute(env, Machine(Ready(trigger), 0, s.row.context, []), Picks(evs)) == Some(t.machine)
    decreases |evs|
  {
    hide Step, Resolved, FindTrigger, Errors;
    if evs != [] {
      var t := Perform(env, s, evs[0]).value;
      if evs[0].Start? {
        HistoryIsSchedule(env, t, evs[1..]);
      } else {
        RunIsSchedule(env, t, trigger, evs[1..]);
      }
    }
  }

  /** With independent branches the final row and the log do not depend on the schedule or on the cancel
      requests: they are those of walking the graph in declaration order. */
  lemma EveryRunEndsAsDeclared(env: Env, fp: Footprint, row: RunRow, trigger: Node, evs: seq<Event>)
    requires Acyclic(env) && Confined(env, fp) && Independent(env, fp)
    requires FindTrigger(env.graph.nodes) == Some(trigger) && trigger.id in env.ranks
    requires Created(row) && AtomicCancels(evs)
    requires var t := History(env, Initial(row), evs); t.Some? && Quiet(env, t.value)
    ensures var t, o := History(env, Initial(row), evs).value, Walk(env, trigger, 0, row.context);
            && t.row.status == (if o.failure.None? then COMPLETED else FAILED)
            && t.row.context == Merge(row.context, o.writes)
            && t.row.completedAt
            && (o.failure.Some? ==>
                  exists message :: message in Errors(t.machine.proc) && RecordsError(t.row, message))
            && multiset(t.machine.log) == multiset(o.log)
            && t.machine.step == o.visits
  {
    hide Step, History, FindTrigger, Errors, Quiet, AtomicCancels, Execute, Walk, Confined, Independent, Picks, Acyclic;
    var t := History(env, Initial(row), evs).value;
    HistoryKeepsSound(env, Initial(row), evs);
    CancelNeverSticks(env, row, evs);
    FailedRowsNameTheirError(env, row, evs);
    QuietIsSettled(env, t);
    RunIsSchedule(env, Initial(row), trigger, evs);
    Confluence.EveryScheduleAgrees(env, fp, trigger, row.context, Picks(evs));
  }

  // ---------- the runner's own run as a history ----------

  /** What the runner computes, with branches in declaration order, is where some history ends, to the last field of
      the row: the recursive runner is one run of the machine. */
  lemma RunnerIsAHistory(env: Env, row: RunRow, trigger: Node) returns (evs: seq<Event>)
    requires Acyclic(env) && Created(row)
    requires FindTrigger(env.graph.nodes) == Some(trigger) && trigger.id in env.ranks
    ensures History(env, Initial(row), evs).Some?
    ensures var t, o := History(env, Initial(row), evs).value, Walk(env, trigger, 0, row.context);
            var s := After(Progress(0, row.context, [], Begun(row)), o);
            && t.row == Verdict(s, o.failure) && t.phase == Settled
            && t.machine.step == s.step && t.machine.vars == s.vars && t.machine.log == s.log
            && !CanStep(env, t.machine.proc, t.machine.step, t.machine.vars)
  {
    hide History, Execute, FindTrigger, Errors, Walk, Resolved, CanStep, Acyclic;
    var m := Machine(Ready(trigger), 0, row.context, []);
    var o := Walk(env, trigger, 0, row.context);
    var picks, t := DeclarationOrder.DeclarationSchedule(env, m, row.currentNode);
    var s := Perform(env, Initial(row), Start).value;
    MovesFollow(env, s, picks);
    var u := History(env, s, Moves(picks)).value;
    var last := if o.failure.None? then Complete else Fail(o.failure.value);
    evs := [Start] + Moves(picks) + [last];
    OneEvent(env, Initial(row), Start);
    OneEvent(env, u, last);
    HistoryAppend(env, Initial(row), [Start], Moves(picks));
    HistoryAppend(env, Initial(row), [Start] + Moves(picks), [last]);
    assert [] + o.log == o.log;
  }
}
