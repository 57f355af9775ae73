/** The tool-calling loop of an agent run: transcript, event trace and totals that must agree. */
module AgentLoop {
  import opened Collections
  import opened ChatTypes

  const MAX_TOOL_ITERATIONS: nat := 10

  datatype Message =
    | System(content: string)
    | User(content: string)
    | Assistant(content: string, calls: seq<Call>)
    | ToolMessage(callId: string, name: string, feedback: Feedback)

  /** The JSON that a tool message carries. */
  datatype Feedback =
    | PendingApproval(message: string, taskId: Option<string>)
    | Output(output: string)
    | Problem(error: Option<string>)

  datatype ToolResult = ToolResult(ok: bool, output: string, error: Option<string>, requiresApproval: bool,
                                   blockReason: string, taskId: Option<string>)

  /** A successful model answer; `deltas` are the texts that were streamed. Costs are exact amounts. */
  datatype Reply = Reply(content: string, calls: seq<Call>, input: int, output: int, cost: int, deltas: seq<string>)

  /** A model call may fail after it has streamed some text. */
  datatype ModelAnswer = Answered(reply: Reply) | Failed(code: string, message: string, deltas: seq<string>)

  datatype Event =
    | MessageStart
    | MessageDelta(content: string)
    | ToolCalled(id: string, name: string)
    | ToolReturned(id: string, name: string, result: ToolResult)
    | ErrorRaised(code: string, message: string)
    | MessageDone

  datatype CallRecord = CallRecord(id: string, name: string, arguments: string, ok: bool, error: Option<string>,
                                   requiresApproval: bool, taskId: Option<string>)

  /** The model and the tools: the answer to the n-th model call and to the n-th tool call of the run. */
  datatype World = World(model: (nat, seq<Message>) -> ModelAnswer, tool: (nat, Call) -> ToolResult)

  /** A successful model answer together with the results of its tool calls. */
  datatype Turn = Turn(reply: Reply, results: seq<ToolResult>)

  datatype Failure = Failure(code: string, message: string, deltas: seq<string>)

  // ---------- what a run consists of ----------

  function Results(w: World, calls: seq<Call>, tools: nat): (r: seq<ToolResult>)
    ensures |r| == |calls|
  {
    seq(|calls|, i requires 0 <= i < |calls| => w.tool(tools + i, calls[i]))
  }

  function TurnOf(w: World, reply: Reply, tools: nat): Turn
  {
    Turn(reply, Results(w, reply.calls, tools))
  }

  /** The turns of a run from its model call number `iter` on, and the failure that ended it, if one did. */
  function Turns(w: World, messages: seq<Message>, iter: nat, tools: nat): (seq<Turn>, Option<Failure>)
    decreases MAX_TOOL_ITERATIONS - iter, |messages|
  {
    if iter >= MAX_TOOL_ITERATIONS then ([], None)
    else
      match w.model(iter, messages)
      case Failed(code, message, deltas) => ([], Some(Failure(code, message, deltas)))
      case Answered(reply) =>
        var t := TurnOf(w, reply, tools);
        if reply.calls == [] then ([t], None)
        else
          var rest := Turns(w, messages + TurnMessages(t), iter + 1, tools + |reply.calls|);
          ([t] + rest.0, rest.1)
  }

  // ---------- what a turn contributes ----------

  /** What a tool message tells the model; a call that waits for approval is answered without its result. */
  function FeedbackOf(r: ToolResult): Feedback
  {
    if r.requiresApproval then PendingApproval(r.blockReason, r.taskId)
    else if r.ok then Output(r.output)
    else Problem(r.error)
  }

  function Answers(calls: seq<Call>, results: seq<ToolResult>): seq<Message>
    requires |results| == |calls|
  {
    seq(|calls|, i requires 0 <= i < |calls| => ToolMessage(calls[i].id, calls[i].name, FeedbackOf(results[i])))
  }

  function TurnMessages(t: Turn): seq<Message>
  {
    if t.reply.calls == [] || |t.results| != |t.reply.calls| then []
    else [Assistant(t.reply.content, t.reply.calls)] + Answers(t.reply.calls, t.results)
  }

  /** Only chunks with text become events. */
  function Deltas(texts: seq<string>): seq<Event>
  {
    Map(Filter(texts, (s: string) => s != ""), (s: string) => MessageDelta(s))
  }

  function CallEvents(calls: seq<Call>, results: seq<ToolResult>): seq<Event>
    requires |results| == |calls|
  {
    if calls == [] then []
    else [ToolCalled(calls[0].id, calls[0].name), ToolReturned(calls[0].id, calls[0].name, results[0])]
         + CallEvents(calls[1..], results[1..])
  }

  function TurnEvents(t: Turn): seq<Event>
  {
    Deltas(t.reply.deltas) + (if |t.results| == |t.reply.calls| then CallEvents(t.reply.calls, t.results) else [])
  }

  function RecordOf(c: Call, r: ToolResult): CallRecord
  {
    CallRecord(c.id, c.name, c.arguments, r.ok, r.error, r.requiresApproval, r.taskId)
  }

  function TurnRecords(t: Turn): seq<CallRecord>
  {
    if |t.results| != |t.reply.calls| then []
    else seq(|t.results|, i requires 0 <= i < |t.results| => RecordOf(t.reply.calls[i], t.results[i]))
  }

  function Flat<T>(parts: seq<seq<T>>): seq<T>
  {
    if parts == [] then [] else parts[0] + Flat(parts[1..])
  }

  lemma {:induction false} FlatAppend<T>(a: seq<seq<T>>, b: seq<seq<T>>)
    ensures Flat(a + b) == Flat(a) + Flat(b)
  {
    if a == [] {
      assert a + b == b;
    } else {
      assert (a + b)[1..] == a[1..] + b;
      FlatAppend(a[1..], b);
    }
  }

  function Total(turns: seq<Turn>, amount: Reply -> int): int
  {
    if turns == [] then 0 else Total(turns[..|turns| - 1], amount) + amount(turns[|turns| - 1].reply)
  }

  function MessagesOf(turns: seq<Turn>): seq<Message>
  {
    Flat(Map(turns, (t: Turn) => TurnMessages(t)))
  }

  function EventsOf(turns: seq<Turn>): seq<Event>
  {
    Flat(Map(turns, (t: Turn) => TurnEvents(t)))
  }

  function RecordsOf(turns: seq<Turn>): seq<CallRecord>
  {
    Flat(Map(turns, (t: Turn) => TurnRecords(t)))
  }

  lemma OneMoreTurn(turns: seq<Turn>, t: Turn)
    ensures MessagesOf(turns + [t]) == MessagesOf(turns) + TurnMessages(t)
    ensures EventsOf(turns + [t]) == EventsOf(turns) + TurnEvents(t)
    ensures RecordsOf(turns + [t]) == RecordsOf(turns) + TurnRecords(t)
    ensures forall amount :: Total(turns + [t], amount) == Total(turns, amount) + amount(t.reply)
  {
    hide TurnMessages, TurnEvents, TurnRecords;
    FlatOneMore(turns, t, (t: Turn) => TurnMessages(t));
    FlatOneMore(turns, t, (t: Turn) => TurnEvents(t));
    FlatOneMore(turns, t, (t: Turn) => TurnRecords(t));
    assert (turns + [t])[..|turns|] == turns;
  }

  lemma FlatOneMore<T>(turns: seq<Turn>, t: Turn, f: Turn -> seq<T>)
    ensures Flat(Map(turns + [t], f)) == Flat(Map(turns, f)) + f(t)
  {
    assert Map(turns + [t], f) == Map(turns, f) + [f(t)];
    FlatAppend(Map(turns, f), [f(t)]);
    assert [f(t)][1..] == [];
    assert f(t) + [] == f(t);
  }

  // ---------- the loop ----------

  datatype RunResult = RunResult(content: string, toolCalls: seq<CallRecord>, input: int, output: int, cost: int,
                                 error: Option<(string, string)>)

  function LastContent(turns: seq<Turn>): string
  {
    if turns == [] then "" else turns[|turns| - 1].reply.content
  }

  function ClosingEvents(failure: Option<Failure>): seq<Event>
  {
    (if failure.None? then []
     else Deltas(failure.value.deltas) + [ErrorRaised(failure.value.code, failure.value.message)])
    + [MessageDone]
  }

  function ResultOf(turns: seq<Turn>, failure: Option<Failure>): RunResult
  {
    RunResult(LastContent(turns), RecordsOf(turns),
              Total(turns, (r: Reply) => r.input), Total(turns, (r: Reply) => r.output),
              Total(turns, (r: Reply) => r.cost),
              if failure.None? then None else Some((failure.value.code, failure.value.message)))
  }

  method EmitDeltas(events: seq<Event>, texts: seq<string>) returns (r: seq<Event>)
    ensures r == events + Deltas(texts)
  {
    r := events;
    for i := 0 to |texts|
      invariant r == events + Deltas(texts[..i])
    {
      FilterAppend(texts[..i], [texts[i]], (s: string) => s != "");
      assert texts[..i + 1] == texts[..i] + [texts[i]];
      assert [texts[i]][1..] == [];
      if texts[i] != "" {
        r := r + [MessageDelta(texts[i])];
      }
    }
    assert texts[..|texts|] == texts;
  }

  lemma CallEventsOneMore(calls: seq<Call>, results: seq<ToolResult>, j: nat)
    requires j < |calls| == |results|
    ensures CallEvents(calls[..j + 1], results[..j + 1]) ==
            CallEvents(calls[..j], results[..j])
            + [ToolCalled(calls[j].id, calls[j].name), ToolReturned(calls[j].id, calls[j].name, results[j])]
    decreases j
  {
    if j == 0 {
      assert calls[..1][1..] == [] && results[..1][1..] == [];
    } else {
      assert calls[..j + 1][1..] == calls[1..][..j] && results[..j + 1][1..] == results[1..][..j];
      assert calls[..j][1..] == calls[1..][..j - 1] && results[..j][1..] == results[1..][..j - 1];
      CallEventsOneMore(calls[1..], results[1..], j - 1);
    }
  }

  lemma TurnParts(w: World, reply: Reply, tools: nat, j: nat)
    requires j < |reply.calls|
    ensures var t := TurnOf(w, reply, tools);
            var (c, r) := (reply.calls[j], w.tool(tools + j, reply.calls[j]));
            && |t.results| == |reply.calls| && t.results[j] == r
            && |Answers(reply.calls, t.results)| == |TurnRecords(t)| == |reply.calls|
            && Answers(reply.calls, t.results)[j] == ToolMessage(c.id, c.name, FeedbackOf(r))
            && TurnRecords(t)[j] == RecordOf(c, r)
  {
  }

  /** The loop over the tool calls of one answer. */
  method ExecuteCalls(w: World, reply: Reply, messages0: seq<Message>, events0: seq<Event>, records0: seq<CallRecord>)
    returns (messages: seq<Message>, events: seq<Event>, records: seq<CallRecord>)
    requires reply.calls != []
    ensures var t := TurnOf(w, reply, |records0|);
            && messages == messages0 + TurnMessages(t)
            && events == events0 + CallEvents(reply.calls, t.results)
            && records == records0 + TurnRecords(t)
  {
    assert (var t := TurnOf(w, reply, |records0|);
      && |Answers(reply.calls, t.results)| == |TurnRecords(t)| == |reply.calls|
      && t.reply == reply && |t.results| == |reply.calls|
      && TurnMessages(t) == [Assistant(reply.content, reply.calls)] + Answers(reply.calls, t.results)
      && CallEvents(reply.calls[..0], t.results[..0]) == []);
    hide Answers, TurnRecords, CallEvents, FeedbackOf, RecordOf, TurnOf, TurnMessages;
    var calls := reply.calls;
    ghost var t := TurnOf(w, reply, |records0|);
    ghost var answers, own := Answers(calls, t.results), TurnRecords(t);
    messages, events, records := messages0 + [Assistant(reply.content, calls)], events0, records0;
    ghost var asked := messages;
    for j := 0 to |calls|
      invariant |answers| == |own| == |calls|
      invariant messages == asked + answers[..j]
      invariant events == events0 + CallEvents(calls[..j], t.results[..j])
      invariant records == records0 + own[..j]
    {
      var tc := calls[j];
      TurnParts(w, reply, |records0|, j);
      CallEventsOneMore(calls, t.results, j);
      events := events + [ToolCalled(tc.id, tc.name)];
      var result := w.tool(|records|, tc);
      records := records + [RecordOf(tc, result)];
      events := events + [ToolReturned(tc.id, tc.name, result)];
      messages := messages + [ToolMessage(tc.id, tc.name, FeedbackOf(result))];
      assert answers[..j + 1] == answers[..j] + [answers[j]] && own[..j + 1] == own[..j] + [own[j]];
      assert events == events0 + CallEvents(calls[..j + 1], t.results[..j + 1]);
    }
    assert calls[..|calls|] == calls && t.results[..|calls|] == t.results;
    assert answers[..|calls|] == answers && own[..|calls|] == own;
  }

  function Prepended(turns: seq<Turn>, rest: (seq<Turn>, Option<Failure>)): (seq<Turn>, Option<Failure>)
  {
    (turns + rest.0, rest.1)
  }

  lemma TurnsUnfold(w: World, messages: seq<Message>, iter: nat, tools: nat, turns: seq<Turn>)
    ensures Prepended(turns, Turns(w, messages, iter, tools)) ==
            if iter >= MAX_TOOL_ITERATIONS then (turns, None)
            else
              match w.model(iter, messages)
              case Failed(code, message, deltas) => (turns, Some(Failure(code, message, deltas)))
              case Answered(reply) =>
                var t := TurnOf(w, reply, tools);
                if reply.calls == [] then (turns + [t], None)
                else Prepended(turns + [t], Turns(w, messages + TurnMessages(t), iter + 1, tools + |reply.calls|))
  {
    hide TurnMessages, TurnOf;
    assert turns + [] == turns;
    if iter < MAX_TOOL_ITERATIONS && w.model(iter, messages).Answered? {
      var reply := w.model(iter, messages).reply;
      var t := TurnOf(w, reply, tools);
      if reply.calls != [] {
        var rest := Turns(w, messages + TurnMessages(t), iter + 1, tools + |reply.calls|);
        assert turns + [t] + rest.0 == turns + ([t] + rest.0);
      }
    }
  }

  /** The loop of `run`, from the initial messages on. The final transcript, trace, records and totals are all
      those of one sequence of turns. */
  method RunLoop(w: World, initial: seq<Message>) returns (r: RunResult, messages: seq<Message>, events: seq<Event>)
    ensures var (turns, failure) := Turns(w, initial, 0, 0);
            && r == ResultOf(turns, failure)
            && messages == initial + MessagesOf(turns)
            && events == [MessageStart] + EventsOf(turns) + ClosingEvents(failure)
    ensures var (turns, failure) := Turns(w, initial, 0, 0);
            && r.content == (if turns == [] then "" else turns[|turns| - 1].reply.content)
            && r.input == Total(turns, (x: Reply) => x.input) && r.output == Total(turns, (x: Reply) => x.output)
            && r.cost == Total(turns, (x: Reply) => x.cost)
            && (r.error.None? <==> failure.None?)
            && (failure.Some? ==> r.error == Some((failure.value.code, failure.value.message)))
  {
    hide TurnMessages, TurnEvents, TurnRecords, MessagesOf, EventsOf, RecordsOf, Total, Results, Deltas, Turns,
         CallEvents;
    var input, output, cost := (r: Reply) => r.input, (r: Reply) => r.output, (r: Reply) => r.cost;
    messages, events := initial, [MessageStart];
    var allToolCalls: seq<CallRecord> := [];
    var totalInput, totalOutput, totalCost, finalContent := 0, 0, 0, "";
    var modelError: Option<(string, string)> := None;
    ghost var turns: seq<Turn> := [];
    ghost var failure: Option<Failure> := None;
    NoTurns();
    assert initial + [] == initial && [MessageStart] + [] == [MessageStart];
    assert [] + Turns(w, initial, 0, 0).0 == Turns(w, initial, 0, 0).0;
    var iter := 0;
    while iter < MAX_TOOL_ITERATIONS
      invariant iter <= MAX_TOOL_ITERATIONS && modelError.None? && failure.None?
      invariant messages == initial + MessagesOf(turns) && events == [MessageStart] + EventsOf(turns)
      invariant allToolCalls == RecordsOf(turns) && finalContent == LastContent(turns)
      invariant totalInput == Total(turns, input) && totalOutput == Total(turns, output)
                && totalCost == Total(turns, cost)
      invariant Turns(w, initial, 0, 0) == Prepended(turns, Turns(w, messages, iter, |allToolCalls|))
    {
      TurnsUnfold(w, messages, iter, |allToolCalls|, turns);
      var response := w.model(iter, messages);
      events := EmitDeltas(events, if response.Failed? then response.deltas else response.reply.deltas);
      if response.Failed? {
        events := events + [ErrorRaised(response.code, response.message)];
        modelError := Some((response.code, response.message));
        failure := Some(Failure(response.code, response.message, response.deltas));
        break;
      }
      var reply := response.reply;
      totalInput := totalInput + reply.input;
      totalOutput := totalOutput + reply.output;
      totalCost := totalCost + reply.cost;
      finalContent := reply.content;
      ghost var t := TurnOf(w, reply, |allToolCalls|);
      OneMoreTurn(turns, t);
      turns := turns + [t];
      if |reply.calls| == 0 {
        QuietTurn(t);
        break;
      }
      messages, events, allToolCalls := ExecuteCalls(w, reply, messages, events, allToolCalls);
      BusyTurn(t);
      iter := iter + 1;
    }
    if iter == MAX_TOOL_ITERATIONS {
      TurnsUnfold(w, messages, iter, |allToolCalls|, turns);
    }
    events := events + [MessageDone];
    r := RunResult(finalContent, allToolCalls, totalInput, totalOutput, totalCost, modelError);
  }

  lemma QuietTurn(t: Turn)
    requires t.reply.calls == [] && t.results == []
    ensures TurnMessages(t) == [] && TurnRecords(t) == [] && TurnEvents(t) == Deltas(t.reply.deltas)
  {
  }

  lemma BusyTurn(t: Turn)
    requires |t.results| == |t.reply.calls|
    ensures |TurnRecords(t)| == |t.reply.calls|
    ensures TurnEvents(t) == Deltas(t.reply.deltas) + CallEvents(t.reply.calls, t.results)
  {
  }

  lemma NoTurns()
    ensures MessagesOf([]) == [] && EventsOf([]) == [] && RecordsOf([]) == []
    ensures forall amount :: Total([], amount) == 0
  {
  }
}
