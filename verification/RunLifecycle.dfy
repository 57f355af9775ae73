/** The status of a run, written by the runner and by cancel requests that may come at any moment. */
module RunLifecycle {
  import opened Collections
  import opened WorkflowGraphs
  import opened WorkflowWalk
  import opened WorkflowRuns
  import opened WorkflowRunner
  import opened WorkflowMachine

  /** How far `run` has come: before its first write, inside `walk`, or past its last write. */
  datatype Phase = Starting | Walking | Settled

  /** `cancels` counts the cancel requests that have read the row but not yet written it. */
  datatype System = System(row: RunRow, phase: Phase, machine: Machine, cancels: nat)

  /** `Cancel` is a cancel request whose read and write come together; the other two are its halves. */
  datatype Event =
    | Start
    | Move(pick: Pick)
    | Complete
    | Fail(error: string)
    | Cancel
    | CancelRead
    | CancelWrite

  predicate ByRunner(ev: Event)
  {
    ev.Start? || ev.Move? || ev.Complete? || ev.Fail?
  }

  function Initial(row: RunRow): System
  {
    System(row, Starting, Machine(Finished, 0, row.context, []), 0)
  }

  function Saved(row: RunRow, e: Effect, vars: Vars): RunRow
  {
    if e.saved.Some? then Progressed(row, e.saved.value, vars) else row
  }

  /** One event; `None` when it cannot happen now. */
  function Perform(env: Env, s: System, ev: Event): Option<System>
  {
    match ev
    case Start =>
      var trigger := FindTrigger(env.graph.nodes);
      if s.phase != Starting then None
      else if trigger.None? then Some(s.(row := Failed(s.row, NO_TRIGGER), phase := Settled))
      else Some(s.(row := Begun(s.row), phase := Walking,
                   machine := Machine(Ready(trigger.value), 0, s.row.context, [])))
    case Move(pick) =>
      var e := Step(env, s.machine.proc, pick, s.machine.step, s.machine.vars);
      if s.phase == Starting || e.None? then None
      else Some(s.(machine := Apply(s.machine, e.value),
                   row := Saved(s.row, e.value, Apply(s.machine, e.value).vars)))
    case Complete =>
      if s.phase != Walking || !Resolved(s.machine.proc) then None
      else Some(s.(row := Succeeded(s.row, s.machine.vars), phase := Settled))
    case Fail(error) =>
      if s.phase != Walking || error !in Errors(s.machine.proc) then None
      else Some(s.(row := Failed(s.row, error), phase := Settled))
    case Cancel =>
      Some(s.(row := AfterCancel(s.row)))
    case CancelRead =>
      if Terminal(s.row.status) then Some(s) else Some(s.(cancels := s.cancels + 1))
    case CancelWrite =>
      if s.cancels == 0 then None else Some(s.(row := Cancelled(s.row), cancels := s.cancels - 1))
  }

  function History(env: Env, s: System, evs: seq<Event>): Option<System>
    decreases |evs|
  {
    if evs == [] then Some(s)
    else
      var next := Perform(env, s, evs[0]);
      if next.None? then None else History(env, next.value, evs[1..])
  }

  // ---------- what every event keeps ----------

  ghost predicate Sound(env: Env, s: System)
  {
    && (s.phase == Starting ==> s.machine == Machine(Finished, 0, s.row.context, []))
    && (s.phase == Starting ==> s.row.status in {PENDING, CANCELLED})
    && (s.phase == Walking ==> s.row.status in {RUNNING, CANCELLED} && FindTrigger(env.graph.nodes).Some?)
    && (s.phase == Settled ==> Terminal(s.row.status))
    && (s.row.status == COMPLETED ==>
          s.phase == Settled && Resolved(s.machine.proc) && FindTrigger(env.graph.nodes).Some?)
    && (s.row.status == FAILED ==> s.phase == Settled && (Throws(s.machine.proc) || FindTrigger(env.graph.nodes).None?))
    && (Terminal(s.row.status) ==> s.row.completedAt)
    && s.row.context == s.machine.vars
    && (FindTrigger(env.graph.nodes).None? ==> s.machine.proc == Finished)
  }

  /** A promise that has rejected stays rejected while its other branches go on. */
  lemma {:induction false} ThrowsPersists(env: Env, p: Proc, pick: Pick, n: nat, vars: Vars)
    requires Throws(p) && Step(env, p, pick, n, vars).Some?
    ensures Throws(Step(env, p, pick, n, vars).value.proc)
  {
    match p
    case Flow(cur, rest) =>
      if Resolved(cur) {
        ResolvedIsStill(env, cur, Here, n, vars);
      } else {
        ThrowsPersists(env, cur, pick, n, vars);
      }
    case Fork(head, tail) =>
      if pick.InHead? && Throws(head) {
        ThrowsPersists(env, head, pick.pick, n, vars);
      } else if pick.InTail? && Throws(tail) {
        ThrowsPersists(env, tail, pick.pick, n, vars);
      }
    case Rejected(_) =>
  }

  /** A step saves exactly when it merges, and it saves the merged variables. */
  lemma {:induction false} StepSavesItsWrites(env: Env, p: Proc, pick: Pick, n: nat, vars: Vars)
    requires Step(env, p, pick, n, vars).Some?
    ensures var e := Step(env, p, pick, n, vars).value; e.saved.None? ==> e.writes == []
  {
    match p
    case Flow(cur, rest) =>
      if !(Resolved(cur) && rest != []) {
        StepSavesItsWrites(env, cur, pick, n, vars);
      }
    case Fork(head, tail) =>
      if pick.InHead? {
        StepSavesItsWrites(env, head, pick.pick, n, vars);
      } else {
        StepSavesItsWrites(env, tail, pick.pick, n, vars);
      }
    case _ =>
  }

  lemma MoveKeepsSound(env: Env, s: System, pick: Pick)
    requires Sound(env, s) && Perform(env, s, Move(pick)).Some?
    ensures Sound(env, Perform(env, s, Move(pick)).value)
    ensures s.row.status != COMPLETED
  {
    var m := s.machine;
    var e := Step(env, m.proc, pick, m.step, m.vars).value;
    StepSavesItsWrites(env, m.proc, pick, m.step, m.vars);
    if Resolved(m.proc) {
      ResolvedIsStill(env, m.proc, pick, m.step, m.vars);
    }
    if Throws(m.proc) {
      ThrowsPersists(env, m.proc, pick, m.step, m.vars);
    }
  }

  lemma EventKeepsSound(env: Env, s: System, ev: Event)
    requires Sound(env, s) && Perform(env, s, ev).Some?
    ensures Sound(env, Perform(env, s, ev).value)
  {
    hide Step, Resolved, Throws, FindTrigger, Errors;
    match ev
    case Move(pick) => MoveKeepsSound(env, s, pick);
    case Fail(error) => ErrorsAreThrown(s.machine.proc);
    case _ =>
  }

  // ---------- terminal statuses ----------

  /** COMPLETED is final: no event changes anything any more, so no further row is written either. */
  lemma {:induction false} CompletedIsFinal(env: Env, s: System, evs: seq<Event>)
    requires Sound(env, s) && s.row.status == COMPLETED && s.cancels == 0 && History(env, s, evs).Some?
    ensures History(env, s, evs) == Some(s)
    decreases |evs|
  {
    hide Step, Resolved, Throws, FindTrigger, Errors;
    if evs != [] {
      if evs[0].Move? {
        MoveKeepsSound(env, s, evs[0].pick);
        assert false;
      } else {
        CompletedIsFinal(env, s, evs[1..]);
      }
    }
  }

  /** FAILED is final as a status, with its error, even while other branches still run. */
  lemma {:induction false} FailedIsFinal(env: Env, s: System, evs: seq<Event>)
    requires Sound(env, s) && s.row.status == FAILED && s.cancels == 0 && History(env, s, evs).Some?
    ensures var t := History(env, s, evs).value;
            t.row.status == FAILED && t.row.error == s.row.error && t.phase == Settled && t.cancels == 0
    decreases |evs|
  {
    hide Step, Resolved, Throws, FindTrigger, Errors;
    if evs != [] {
      EventKeepsSound(env, s, evs[0]);
      FailedIsFinal(env, Perform(env, s, evs[0]).value, evs[1..]);
    }
  }

  ghost predicate Created(row: RunRow)
  {
    row.status == PENDING
  }

  lemma {:induction false} HistoryKeepsSound(env: Env, s: System, evs: seq<Event>)
    requires Sound(env, s) && History(env, s, evs).Some?
    ensures Sound(env, History(env, s, evs).value)
    decreases |evs|
  {
    hide Perform, Sound;
    if evs != [] {
      EventKeepsSound(env, s, evs[0]);
      HistoryKeepsSound(env, Perform(env, s, evs[0]).value, evs[1..]);
    }
  }

  /** In every history every terminal row has its completion time. */
  lemma TerminalRowsAreStamped(env: Env, row: RunRow, evs: seq<Event>)
    requires Created(row) && History(env, Initial(row), evs).Some?
    ensures var t := History(env, Initial(row), evs).value.row; Terminal(t.status) ==> t.completedAt
  {
    HistoryKeepsSound(env, Initial(row), evs);
  }

  /** Errors of rejected branches are not forgotten. */
  lemma {:induction false} ErrorsPersist(env: Env, p: Proc, pick: Pick, n: nat, vars: Vars)
    requires Step(env, p, pick, n, vars).Some?
    ensures Errors(p) <= Errors(Step(env, p, pick, n, vars).value.proc)
  {
    match p
    case Flow(cur, rest) =>
      if Resolved(cur) && rest != [] {
        ResolvedIsStill(env, cur, Here, n, vars);
        ErrorsAreThrown(cur);
      } else {
        ErrorsPersist(env, cur, pick, n, vars);
      }
    case Fork(head, tail) =>
      ErrorsPersist(env, if pick.InHead? then head else tail, pick.pick, n, vars);
    case _ =>
  }

  /** A FAILED row holds the message of a branch that has rejected, or that there is no TRIGGER. */
  ghost predicate NamesError(env: Env, s: System)
  {
    s.row.status == FAILED ==>
      || (FindTrigger(env.graph.nodes).None? && RecordsError(s.row, "No TRIGGER node found"))
      || (exists message :: message in Errors(s.machine.proc) && RecordsError(s.row, message))
  }

  lemma EventNamesError(env: Env, s: System, ev: Event)
    requires NamesError(env, s) && Perform(env, s, ev).Some?
    ensures NamesError(env, Perform(env, s, ev).value)
  {
    hide Step, Resolved, FindTrigger, Errors;
    match ev
    case Move(pick) => ErrorsPersist(env, s.machine.proc, pick, s.machine.step, s.machine.vars);
    case Fail(error) => assert RecordsError(Perform(env, s, ev).value.row, error);
    case _ =>
  }

  lemma {:induction false} HistoryNamesError(env: Env, s: System, evs: seq<Event>)
    requires NamesError(env, s) && History(env, s, evs).Some?
    ensures NamesError(env, History(env, s, evs).value)
    decreases |evs|
  {
    hide Perform, NamesError;
    if evs != [] {
      EventNamesError(env, s, evs[0]);
      HistoryNamesError(env, Perform(env, s, evs[0]).value, evs[1..]);
    }
  }

  /** In every history a FAILED row has recorded its error. */
  lemma FailedRowsNameTheirError(env: Env, row: RunRow, evs: seq<Event>)
    requires Created(row) && History(env, Initial(row), evs).Some?
    ensures NamesError(env, History(env, Initial(row), evs).value)
  {
    HistoryNamesError(env, Initial(row), evs);
  }

  /** How many of the events are the runner's last write. */
  ghost function Verdicts(env: Env, s: System, evs: seq<Event>): nat
    requires History(env, s, evs).Some?
    decreases |evs|
  {
    if evs == [] then 0
    else
      var t := Perform(env, s, evs[0]).value;
      (if ByRunner(evs[0]) && t.row.status in {COMPLETED, FAILED} && !evs[0].Move? then 1 else 0)
        + Verdicts(env, t, evs[1..])
  }

  /** The runner writes a terminal status at most once, and has done so exactly when it is settled. That there is
      no second verdict is built into `phase`, which stands for the place in `run` after its last write; that
      requests and branches that go on write none is what this adds. */
  lemma {:induction false} OneVerdict(env: Env, s: System, evs: seq<Event>)
    requires History(env, s, evs).Some?
    ensures var t := History(env, s, evs).value;
            Verdicts(env, s, evs) == (if t.phase == Settled then 1 else 0) - (if s.phase == Settled then 1 else 0)
    decreases |evs|
  {
    hide Step, Resolved, FindTrigger, Errors;
    if evs != [] {
      OneVerdict(env, Perform(env, s, evs[0]).value, evs[1..]);
    }
  }

  /** Only the runner's own status writes bring a run back from CANCELLED. */
  lemma {:induction false} CancelledStays(env: Env, s: System, evs: seq<Event>)
    requires s.row.status == CANCELLED && History(env, s, evs).Some?
    requires forall ev :: ev in evs ==> !ev.Start? && !ev.Complete? && !ev.Fail?
    ensures History(env, s, evs).value.row.status == CANCELLED
    decreases |evs|
  {
    hide Step, Resolved, FindTrigger, Errors;
    if evs != [] {
      assert evs[0] in evs;
      CancelledStays(env, Perform(env, s, evs[0]).value, evs[1..]);
    }
  }

  // ---------- cancel requests that write late ----------

  /** Once the runner has written its verdict, the status changes exactly when a cancel request that had
      read the row before writes to it. */
  lemma {:induction false} VerdictFallsToLateCancel(env: Env, s: System, evs: seq<Event>)
    requires s.phase == Settled && Terminal(s.row.status) && History(env, s, evs).Some?
    ensures var t := History(env, s, evs).value;
            && t.row.status == (if CancelWrite in evs then CANCELLED else s.row.status)
            && (CancelWrite in evs ==> s.cancels > 0)
    decreases |evs|
  {
    hide Step, Resolved, FindTrigger, Errors;
    if evs != [] {
      assert evs == [evs[0]] + evs[1..];
      VerdictFallsToLateCancel(env, Perform(env, s, evs[0]).value, evs[1..]);
    }
  }

  /** And it can happen: a request that reads the row before the verdict may write after it. */
  lemma LateCancelOverwrites(env: Env, s: System, verdict: Event)
    requires s.phase == Walking && !Terminal(s.row.status) && (verdict.Complete? || verdict.Fail?)
    requires Perform(env, s, verdict).Some?
    ensures var t := History(env, s, [CancelRead] + ([verdict] + [CancelWrite]));
            t.Some? && t.value.phase == Settled && t.value.row.status == CANCELLED
  {
    hide Resolved, Errors;
    var a := Perform(env, s, CancelRead).value;
    OneEvent(env, s, CancelRead);
    OneEvent(env, a, verdict);
    var b := Perform(env, a, verdict).value;
    OneEvent(env, b, CancelWrite);
    HistoryAppend(env, a, [verdict], [CancelWrite]);
    HistoryAppend(env, s, [CancelRead], [verdict] + [CancelWrite]);
  }

  function Count(evs: seq<Event>, ev: Event): nat
  {
    if evs == [] then 0 else (if evs[0] == ev then 1 else 0) + Count(evs[1..], ev)
  }

  /** No request writes without having read. */
  lemma {:induction false} CancelWritesNeedReads(env: Env, s: System, evs: seq<Event>)
    requires History(env, s, evs).Some?
    ensures Count(evs, CancelWrite) + History(env, s, evs).value.cancels <= s.cancels + Count(evs, CancelRead)
    decreases |evs|
  {
    hide Step, Resolved, FindTrigger, Errors;
    if evs != [] {
      CancelWritesNeedReads(env, Perform(env, s, evs[0]).value, evs[1..]);
    }
  }

  // ---------- how every run ends ----------

  ghost predicate AtomicCancels(evs: seq<Event>)
  {
    forall ev :: ev in evs ==> !ev.CancelRead? && !ev.CancelWrite?
  }

  /** The runner has nothing left to do. */
  ghost predicate Quiet(env: Env, s: System)
  {
    forall ev :: ByRunner(ev) ==> Perform(env, s, ev).None?
  }

  lemma {:induction false} SettledIsDecided(env: Env, s: System, evs: seq<Event>)
    requires Sound(env, s) && AtomicCancels(evs) && History(env, s, evs).Some?
    requires s.cancels == 0 && (s.phase == Settled ==> s.row.status != CANCELLED)
    ensures var t := History(env, s, evs).value; t.phase == Settled ==> t.row.status != CANCELLED
    decreases |evs|
  {
    hide Step, Resolved, Throws, FindTrigger, Errors;
    if evs != [] {
      assert evs[0] in evs;
      EventKeepsSound(env, s, evs[0]);
      SettledIsDecided(env, Perform(env, s, evs[0]).value, evs[1..]);
    }
  }

  lemma QuietIsSettled(env: Env, s: System)
    requires Quiet(env, s)
    ensures s.phase == Settled && !CanStep(env, s.machine.proc, s.machine.step, s.machine.vars)
  {
    var p := s.machine.proc;
    assert Perform(env, s, Start).None? && Perform(env, s, Complete).None?;
    forall pick ensures Step(env, p, pick, s.machine.step, s.machine.vars).None? {
      assert Perform(env, s, Move(pick)).None?;
    }
    if s.phase == Walking && Throws(p) {
      var ev := FailIsPossible(env, s);
      assert false;
    } else if s.phase == Walking {
      var pick := UnsettledCanStep(env, p, s.machine.step, s.machine.vars);
      assert false;
    }
  }

  lemma FailIsPossible(env: Env, s: System) returns (ev: Event)
    requires s.phase == Walking && Throws(s.machine.proc)
    ensures ByRunner(ev) && Perform(env, s, ev).Some?
  {
    ErrorsAreThrown(s.machine.proc);
    var error :| error in Errors(s.machine.proc);
    ev := Fail(error);
  }

  /** A cancel request never sticks: however many come and whenever they come, the run ends COMPLETED
      when every branch resolved and FAILED otherwise. */
  lemma CancelNeverSticks(env: Env, row: RunRow, evs: seq<Event>)
    requires Created(row) && AtomicCancels(evs)
    requires var t := History(env, Initial(row), evs); t.Some? && Quiet(env, t.value)
    ensures var t := History(env, Initial(row), evs).value;
            && t.row.status in {COMPLETED, FAILED}
            && (t.row.status == COMPLETED <==> Resolved(t.machine.proc) && FindTrigger(env.graph.nodes).Some?)
            && (t.row.status == FAILED <==> Throws(t.machine.proc) || FindTrigger(env.graph.nodes).None?)
  {
    hide Step, History, FindTrigger, Errors, Quiet, AtomicCancels;
    var t := History(env, Initial(row), evs).value;
    HistoryKeepsSound(env, Initial(row), evs);
    SettledIsDecided(env, Initial(row), evs);
    QuietIsSettled(env, t);
    if Resolved(t.machine.proc) {
      ResolvedIsStill(env, t.machine.proc, Here, t.machine.step, t.machine.vars);
    }
  }

  ghost function RunnerEvents(evs: seq<Event>): nat
  {
    if evs == [] then 0 else (if ByRunner(evs[0]) then 1 else 0) + RunnerEvents(evs[1..])
  }

  ghost function Fuel(env: Env, s: System, trigger: Node): nat
    requires Acyclic(env) && Ranked(env, s.machine.proc) && trigger.id in env.ranks
  {
    match s.phase
    case Starting => 2 + CostOf(env, trigger.id)
    case Walking => 1 + Cost(env, s.machine.proc)
    case Settled => Cost(env, s.machine.proc)
  }

  lemma RunnerEventsUseFuel(env: Env, s: System, trigger: Node, ev: Event)
    requires Acyclic(env) && Ranked(env, s.machine.proc)
    requires FindTrigger(env.graph.nodes) == Some(trigger) && trigger.id in env.ranks
    requires Perform(env, s, ev).Some?
    ensures var t := Perform(env, s, ev).value;
            && Ranked(env, t.machine.proc)
            && Fuel(env, t, trigger) + (if ByRunner(ev) then 1 else 0) <= Fuel(env, s, trigger)
  {
    hide Step, Resolved, FindTrigger, Errors, CostOf, Acyclic;
    match ev
    case Move(pick) => StepLowersCost(env, s.machine.proc, pick, s.machine.step, s.machine.vars);
    case Start => assert Cost(env, Ready(trigger)) == CostOf(env, trigger.id);
    case _ =>
  }

  /** Every run ends: the runner takes a bounded number of steps, whatever handlers and conditions answer,
      however the branches interleave and whatever cancel requests come. */
  lemma {:induction false} EveryRunEnds(env: Env, s: System, trigger: Node, evs: seq<Event>)
    requires Acyclic(env) && Ranked(env, s.machine.proc)
    requires FindTrigger(env.graph.nodes) == Some(trigger) && trigger.id in env.ranks
    requires History(env, s, evs).Some?
    ensures RunnerEvents(evs) <= Fuel(env, s, trigger)
    decreases |evs|
  {
    hide Perform, FindTrigger, Acyclic, Fuel;
    if evs != [] {
      RunnerEventsUseFuel(env, s, trigger, evs[0]);
      EveryRunEnds(env, Perform(env, s, evs[0]).value, trigger, evs[1..]);
    }
  }

  // ---------- a schedule as a history ----------

  function Moves(picks: seq<Pick>): seq<Event>
  {
    Map(picks, (p: Pick) => Move(p))
  }

  lemma {:induction false} MovesFollow(env: Env, s: System, picks: seq<Pick>)
    requires s.phase != Starting && Execute(env, s.machine, picks).Some? && s.row.context == s.machine.vars
    ensures History(env, s, Moves(picks)).Some?
    ensures var t := History(env, s, Moves(picks)).value;
            && t.machine == Execute(env, s.machine, picks).value
            && t.phase == s.phase
            && t.row == s.row.(currentNode := Marks(env, s.machine, picks, s.row.currentNode),
                               context := t.machine.vars)
    decreases |picks|
  {
    hide Step;
    if picks != [] {
      StepSavesItsWrites(env, s.machine.proc, picks[0], s.machine.step, s.machine.vars);
      var t := Perform(env, s, Move(picks[0])).value;
      MovesFollow(env, t, picks[1..]);
      assert Moves(picks) == [Move(picks[0])] + Moves(picks[1..]);
      assert Moves(picks)[1..] == Moves(picks[1..]);
    }
  }

  lemma {:induction false} HistoryAppend(env: Env, s: System, a: seq<Event>, b: seq<Event>)
    requires History(env, s, a).Some?
    ensures History(env, s, a + b) == History(env, History(env, s, a).value, b)
    decreases |a|
  {
    hide Perform;
    if a == [] {
      assert a + b == b;
    } else {
      assert (a + b)[1..] == a[1..] + b;
      HistoryAppend(env, Perform(env, s, a[0]).value, a[1..], b);
    }
  }

  lemma OneEvent(env: Env, s: System, ev: Event)
    ensures History(env, s, [ev]) == Perform(env, s, ev)
  {
    hide Perform;
    var none: seq<Event> := [];
    assert [ev][1..] == none;
    assert forall t :: History(env, t, none) == Some(t);
  }
}
