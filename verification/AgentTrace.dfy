/** What every agent run looks like from outside. */
module AgentTrace {
  import opened Collections
  import opened ChatTypes
  import opened AgentLoop

  /** Every turn carries one result per call, and only the last one may have no calls. */
  ghost predicate Proper(turns: seq<Turn>)
  {
    && (forall i :: 0 <= i < |turns| ==> |turns[i].results| == |turns[i].reply.calls|)
    && (forall i :: 0 <= i < |turns| - 1 ==> turns[i].reply.calls != [])
  }

  ghost predicate AllBusy(turns: seq<Turn>)
  {
    forall i :: 0 <= i < |turns| ==> turns[i].reply.calls != []
  }

  /** A run with `left` model calls to go makes no more, and ends in one of three ways: with an answer without
      tool calls, with a failure, or because every answer it had left asked for tools. */
  ghost predicate Ends(turns: seq<Turn>, failure: Option<Failure>, left: nat)
  {
    && Proper(turns)
    && |turns| + (if failure.Some? then 1 else 0) <= left
    && (AllBusy(turns) ==> failure.Some? || |turns| == left)
    && (!AllBusy(turns) ==> failure.None?)
  }

  lemma OneTurnBefore(t: Turn, turns: seq<Turn>, failure: Option<Failure>, left: nat)
    requires Ends(turns, failure, left) && t.reply.calls != [] && |t.results| == |t.reply.calls|
    ensures Ends([t] + turns, failure, left + 1)
  {
    var all := [t] + turns;
    assert all[1..] == turns;
    assert forall i :: 0 <= i < |turns| ==> all[i + 1] == turns[i];
    assert AllBusy(all) <==> AllBusy(turns) by {
      if AllBusy(all) {
        forall i | 0 <= i < |turns| ensures turns[i].reply.calls != [] {
          assert all[i + 1].reply.calls != [];
        }
      }
    }
  }

  /** At most ten model calls, failed ones included. */
  lemma {:induction false} RunsAreBounded(w: World, messages: seq<Message>, iter: nat, tools: nat)
    requires iter <= MAX_TOOL_ITERATIONS
    ensures var (turns, failure) := Turns(w, messages, iter, tools);
            Ends(turns, failure, MAX_TOOL_ITERATIONS - iter)
    decreases MAX_TOOL_ITERATIONS - iter
  {
    hide TurnMessages, Ends;
    if iter == MAX_TOOL_ITERATIONS {
      ShortEnds(None, 0);
    } else {
      var answer := w.model(iter, messages);
      if answer.Failed? {
        ShortEnds(Some(Failure(answer.code, answer.message, answer.deltas)), MAX_TOOL_ITERATIONS - iter);
      } else {
        var t := TurnOf(w, answer.reply, tools);
        if answer.reply.calls == [] {
          QuietEnds(t, MAX_TOOL_ITERATIONS - iter);
        } else {
          RunsAreBounded(w, messages + TurnMessages(t), iter + 1, tools + |answer.reply.calls|);
          var rest := Turns(w, messages + TurnMessages(t), iter + 1, tools + |answer.reply.calls|);
          OneTurnBefore(t, rest.0, rest.1, MAX_TOOL_ITERATIONS - iter - 1);
        }
      }
    }
  }

  lemma ShortEnds(failure: Option<Failure>, left: nat)
    requires failure.Some? <==> left > 0
    ensures Ends([], failure, left)
  {
  }

  lemma QuietEnds(t: Turn, left: nat)
    requires left > 0 && t.reply.calls == [] && t.results == []
    ensures Ends([t], None, left)
  {
    assert [t][0].reply.calls == [];
  }

  // ---------- the transcript ----------

  /** A transcript in which every assistant turn is followed by one tool message per call, with the id and
      name of the call, in the order of the calls, and nothing else occurs. */
  ghost predicate Paired(ms: seq<Message>)
    decreases |ms|
  {
    ms == [] ||
    (&& ms[0].Assistant? && ms[0].calls != [] && |ms| > |ms[0].calls|
     && (forall j :: 0 <= j < |ms[0].calls| ==>
           && ms[1 + j].ToolMessage?
           && ms[1 + j].callId == ms[0].calls[j].id && ms[1 + j].name == ms[0].calls[j].name)
     && Paired(ms[1 + |ms[0].calls|..]))
  }

  lemma {:induction false} TurnsArePaired(turns: seq<Turn>)
    requires forall i :: 0 <= i < |turns| ==> |turns[i].results| == |turns[i].reply.calls|
    ensures Paired(MessagesOf(turns))
  {
    if turns != [] {
      var t := turns[0];
      var rest := MessagesOf(turns[1..]);
      TurnsArePaired(turns[1..]);
      var ms := MessagesOf(turns);
      assert ms == TurnMessages(t) + rest;
      if t.reply.calls == [] {
        assert ms == rest;
      } else {
        assert ms[1 + |t.reply.calls|..] == rest;
      }
    }
  }

  // ---------- the event trace ----------

  /** Deltas and call/result pairs that belong together, up to the end. */
  ghost predicate Body(es: seq<Event>)
    decreases |es|
  {
    || es == [MessageDone]
    || (|es| == 2 && es[0].ErrorRaised? && es[1] == MessageDone)
    || (|es| > 0 && es[0].MessageDelta? && es[0].content != "" && Body(es[1..]))
    || (|es| > 1 && es[0].ToolCalled? && es[1].ToolReturned? && es[1].id == es[0].id && es[1].name == es[0].name
        && Body(es[2..]))
  }

  ghost predicate WellFormedTrace(es: seq<Event>)
  {
    |es| > 0 && es[0] == MessageStart && Body(es[1..])
  }

  lemma {:induction false} DeltasThenBody(texts: seq<string>, es: seq<Event>)
    requires Body(es)
    ensures Body(Deltas(texts) + es)
    decreases |texts|
  {
    hide Body;
    if texts == [] {
      assert Deltas(texts) + es == es;
    } else {
      DeltasThenBody(texts[1..], es);
      var rest := Deltas(texts[1..]) + es;
      if texts[0] != "" {
        assert Deltas(texts) + es == [MessageDelta(texts[0])] + rest;
        DeltaThenBody(texts[0], rest);
      }
    }
  }

  lemma DeltaThenBody(text: string, es: seq<Event>)
    requires text != "" && Body(es)
    ensures Body([MessageDelta(text)] + es)
  {
    assert ([MessageDelta(text)] + es)[1..] == es;
  }

  lemma PairThenBody(id: string, name: string, result: ToolResult, es: seq<Event>)
    requires Body(es)
    ensures Body([ToolCalled(id, name), ToolReturned(id, name, result)] + es)
  {
    assert ([ToolCalled(id, name), ToolReturned(id, name, result)] + es)[2..] == es;
  }

  lemma {:induction false} CallsThenBody(calls: seq<Call>, results: seq<ToolResult>, es: seq<Event>)
    requires |results| == |calls| && Body(es)
    ensures Body(CallEvents(calls, results) + es)
    decreases |calls|
  {
    hide Body;
    if calls == [] {
      assert CallEvents(calls, results) + es == es;
    } else {
      CallsThenBody(calls[1..], results[1..], es);
      var rest := CallEvents(calls[1..], results[1..]) + es;
      assert CallEvents(calls, results) + es
             == [ToolCalled(calls[0].id, calls[0].name), ToolReturned(calls[0].id, calls[0].name, results[0])] + rest;
      PairThenBody(calls[0].id, calls[0].name, results[0], rest);
    }
  }

  lemma {:induction false} TurnsThenBody(turns: seq<Turn>, es: seq<Event>)
    requires Body(es) && forall i :: 0 <= i < |turns| ==> |turns[i].results| == |turns[i].reply.calls|
    ensures Body(EventsOf(turns) + es)
    decreases |turns|
  {
    hide Body, Deltas, CallEvents;
    if turns == [] {
      assert EventsOf(turns) + es == es;
    } else {
      var t := turns[0];
      TurnsThenBody(turns[1..], es);
      var rest := EventsOf(turns[1..]) + es;
      CallsThenBody(t.reply.calls, t.results, rest);
      DeltasThenBody(t.reply.deltas, CallEvents(t.reply.calls, t.results) + rest);
      assert EventsOf(turns) + es == Deltas(t.reply.deltas) + (CallEvents(t.reply.calls, t.results) + rest);
    }
  }

  lemma ClosingIsBody(failure: Option<Failure>)
    ensures Body(ClosingEvents(failure))
  {
    if failure.Some? {
      var f := failure.value;
      var last := [ErrorRaised(f.code, f.message), MessageDone];
      DeltasThenBody(f.deltas, last);
      assert ClosingEvents(failure) == Deltas(f.deltas) + last;
    } else {
      assert ClosingEvents(failure) == [MessageDone];
    }
  }

  /** Every run: start, then deltas and matched call/result pairs, at most one error, and done; a transcript of
      assistant turns, each followed by one tool message per call; and at most ten model calls. */
  lemma RunsAreWellFormed(w: World, initial: seq<Message>)
    ensures var (turns, failure) := Turns(w, initial, 0, 0);
            && WellFormedTrace([MessageStart] + EventsOf(turns) + ClosingEvents(failure))
            && Paired(MessagesOf(turns))
            && |turns| + (if failure.Some? then 1 else 0) <= 10
  {
    hide Turns, Body, Paired;
    var (turns, failure) := Turns(w, initial, 0, 0);
    RunsAreBounded(w, initial, 0, 0);
    TurnsArePaired(turns);
    ClosingIsBody(failure);
    TurnsThenBody(turns, ClosingEvents(failure));
    assert [MessageStart] + EventsOf(turns) + ClosingEvents(failure)
           == [MessageStart] + (EventsOf(turns) + ClosingEvents(failure));
    assert ([MessageStart] + (EventsOf(turns) + ClosingEvents(failure)))[1..]
           == EventsOf(turns) + ClosingEvents(failure);
  }

  // ---------- records and events agree ----------

  /** The part of a record that the result event shows. */
  ghost predicate Shows(e: Event, r: CallRecord)
  {
    && e.ToolReturned? && e.id == r.id && e.name == r.name
    && e.result.ok == r.ok && e.result.error == r.error
    && e.result.requiresApproval == r.requiresApproval && e.result.taskId == r.taskId
  }

  function Returned(es: seq<Event>): seq<Event>
  {
    Filter(es, (e: Event) => e.ToolReturned?)
  }

  ghost predicate AllShown(es: seq<Event>, records: seq<CallRecord>)
  {
    |Returned(es)| == |records| && forall k :: 0 <= k < |records| ==> Shows(Returned(es)[k], records[k])
  }

  lemma ShownAppend(a: seq<Event>, ra: seq<CallRecord>, b: seq<Event>, rb: seq<CallRecord>)
    requires AllShown(a, ra) && AllShown(b, rb)
    ensures AllShown(a + b, ra + rb)
  {
    FilterAppend(a, b, (e: Event) => e.ToolReturned?);
  }

  lemma {:induction false} NothingReturned(es: seq<Event>)
    requires forall i :: 0 <= i < |es| ==> !es[i].ToolReturned?
    ensures AllShown(es, [])
  {
    if es != [] {
      NothingReturned(es[1..]);
    }
  }

  lemma {:induction false} CallsAreShown(calls: seq<Call>, results: seq<ToolResult>)
    requires |results| == |calls|
    ensures AllShown(CallEvents(calls, results), TurnRecords(Turn(Reply("", calls, 0, 0, 0, []), results)))
    decreases |calls|
  {
    hide Returned;
    var records := TurnRecords(Turn(Reply("", calls, 0, 0, 0, []), results));
    if calls == [] {
      NothingReturned([]);
    } else {
      CallsAreShown(calls[1..], results[1..]);
      var rest := TurnRecords(Turn(Reply("", calls[1..], 0, 0, 0, []), results[1..]));
      assert records == [RecordOf(calls[0], results[0])] + rest;
      PairIsShown(calls[0], results[0]);
      ShownAppend([ToolCalled(calls[0].id, calls[0].name), ToolReturned(calls[0].id, calls[0].name, results[0])],
                  [RecordOf(calls[0], results[0])], CallEvents(calls[1..], results[1..]), rest);
    }
  }

  lemma PairIsShown(c: Call, r: ToolResult)
    ensures AllShown([ToolCalled(c.id, c.name), ToolReturned(c.id, c.name, r)], [RecordOf(c, r)])
  {
    var es := [ToolCalled(c.id, c.name), ToolReturned(c.id, c.name, r)];
    assert es[1..] == [ToolReturned(c.id, c.name, r)] && es[1..][1..] == [];
    assert Returned(es[1..][1..]) == [] && Returned(es[1..]) == [ToolReturned(c.id, c.name, r)];
    assert Returned(es) == [ToolReturned(c.id, c.name, r)];
  }

  lemma {:induction false} TurnsAreShown(turns: seq<Turn>)
    requires forall i :: 0 <= i < |turns| ==> |turns[i].results| == |turns[i].reply.calls|
    ensures AllShown(EventsOf(turns), RecordsOf(turns))
    decreases |turns|
  {
    hide AllShown, Deltas, CallEvents, RecordOf;
    if turns == [] {
      NothingReturned([]);
    } else {
      var t := turns[0];
      TurnsAreShown(turns[1..]);
      DeltasReturnNothing(t.reply.deltas);
      CallsAreShown(t.reply.calls, t.results);
      ShownAppend(Deltas(t.reply.deltas), [], CallEvents(t.reply.calls, t.results), TurnRecords(t));
      assert [] + TurnRecords(t) == TurnRecords(t);
      assert TurnRecords(t) == TurnRecords(Turn(Reply("", t.reply.calls, 0, 0, 0, []), t.results));
      ShownAppend(TurnEvents(t), TurnRecords(t), EventsOf(turns[1..]), RecordsOf(turns[1..]));
    }
  }

  lemma DeltasReturnNothing(texts: seq<string>)
    ensures AllShown(Deltas(texts), [])
  {
    NothingReturned(Deltas(texts));
  }

  /** In every run the tool calls of the result are, one by one and in order, those of the emitted results. */
  lemma RecordsMatchTrace(w: World, initial: seq<Message>)
    ensures var (turns, failure) := Turns(w, initial, 0, 0);
            AllShown([MessageStart] + EventsOf(turns) + ClosingEvents(failure), ResultOf(turns, failure).toolCalls)
  {
    hide Turns, AllShown, Deltas;
    var (turns, failure) := Turns(w, initial, 0, 0);
    RunsAreBounded(w, initial, 0, 0);
    TurnsAreShown(turns);
    NothingReturned([MessageStart]);
    ClosingReturnsNothing(failure);
    ShownAppend([MessageStart], [], EventsOf(turns), RecordsOf(turns));
    ShownAppend([MessageStart] + EventsOf(turns), [] + RecordsOf(turns), ClosingEvents(failure), []);
    assert [] + RecordsOf(turns) + [] == RecordsOf(turns);
  }

  lemma ClosingReturnsNothing(failure: Option<Failure>)
    ensures AllShown(ClosingEvents(failure), [])
  {
    NothingReturned(ClosingEvents(failure));
  }

  // ---------- tool messages and events agree ----------

  /** The tool message says what came of the call: that it waits for approval, its output, or its error. */
  ghost predicate Tells(m: Message, e: Event)
  {
    && m.ToolMessage? && e.ToolReturned? && m.callId == e.id && m.name == e.name
    && (e.result.requiresApproval ==> m.feedback == PendingApproval(e.result.blockReason, e.result.taskId))
    && (!e.result.requiresApproval && e.result.ok ==> m.feedback == Output(e.result.output))
    && (!e.result.requiresApproval && !e.result.ok ==> m.feedback == Problem(e.result.error))
  }

  function ToolMessages(ms: seq<Message>): seq<Message>
  {
    Filter(ms, (m: Message) => m.ToolMessage?)
  }

  ghost predicate AllTold(ms: seq<Message>, es: seq<Event>)
  {
    && |ToolMessages(ms)| == |Returned(es)|
    && forall k :: 0 <= k < |Returned(es)| ==> Tells(ToolMessages(ms)[k], Returned(es)[k])
  }

  lemma ToldAppend(ma: seq<Message>, a: seq<Event>, mb: seq<Message>, b: seq<Event>)
    requires AllTold(ma, a) && AllTold(mb, b)
    ensures AllTold(ma + mb, a + b)
  {
    hide Tells;
    FilterAppend(ma, mb, (m: Message) => m.ToolMessage?);
    FilterAppend(a, b, (e: Event) => e.ToolReturned?);
  }

  lemma NothingTold(ms: seq<Message>, es: seq<Event>)
    requires AllShown(es, []) && (ms == [] || (|ms| == 1 && ms[0].Assistant?))
    ensures AllTold(ms, es)
  {
    assert ToolMessages([]) == [];
    if |ms| == 1 {
      assert ms[1..] == [] && ToolMessages(ms) == ToolMessages(ms[1..]);
    }
  }

  lemma PairIsTold(c: Call, r: ToolResult)
    ensures AllTold([ToolMessage(c.id, c.name, FeedbackOf(r))],
                    [ToolCalled(c.id, c.name), ToolReturned(c.id, c.name, r)])
  {
    var ms := [ToolMessage(c.id, c.name, FeedbackOf(r))];
    PairIsShown(c, r);
    assert ms[1..] == [] && ToolMessages(ms[1..]) == [] && ToolMessages(ms) == ms;
    var es := [ToolCalled(c.id, c.name), ToolReturned(c.id, c.name, r)];
    assert es[1..] == [ToolReturned(c.id, c.name, r)] && es[1..][1..] == [];
    assert Returned(es[1..][1..]) == [] && Returned(es[1..]) == [ToolReturned(c.id, c.name, r)];
  }

  lemma {:induction false} CallsAreTold(calls: seq<Call>, results: seq<ToolResult>)
    requires |results| == |calls|
    ensures AllTold(Answers(calls, results), CallEvents(calls, results))
    decreases |calls|
  {
    hide AllTold, FeedbackOf;
    if calls == [] {
      NothingReturned([]);
      NothingTold([], []);
    } else {
      CallsAreTold(calls[1..], results[1..]);
      PairIsTold(calls[0], results[0]);
      var first := [ToolMessage(calls[0].id, calls[0].name, FeedbackOf(results[0]))];
      ToldAppend(first, [ToolCalled(calls[0].id, calls[0].name), ToolReturned(calls[0].id, calls[0].name, results[0])],
                 Answers(calls[1..], results[1..]), CallEvents(calls[1..], results[1..]));
      assert Answers(calls, results) == first + Answers(calls[1..], results[1..]);
    }
  }

  lemma {:induction false} TurnsAreTold(turns: seq<Turn>)
    requires forall i :: 0 <= i < |turns| ==> |turns[i].results| == |turns[i].reply.calls|
    ensures AllTold(MessagesOf(turns), EventsOf(turns))
    decreases |turns|
  {
    hide AllTold, AllShown, Deltas, CallEvents, Answers;
    if turns == [] {
      NothingReturned([]);
      NothingTold([], []);
    } else {
      var t := turns[0];
      TurnsAreTold(turns[1..]);
      TurnIsTold(t);
      ToldAppend(TurnMessages(t), TurnEvents(t), MessagesOf(turns[1..]), EventsOf(turns[1..]));
    }
  }

  lemma TurnIsTold(t: Turn)
    requires |t.results| == |t.reply.calls|
    ensures AllTold(TurnMessages(t), TurnEvents(t))
  {
    hide AllTold, AllShown, Deltas, Answers;
    DeltasReturnNothing(t.reply.deltas);
    if t.reply.calls == [] {
      NothingTold([], Deltas(t.reply.deltas));
      assert Deltas(t.reply.deltas) + [] == Deltas(t.reply.deltas);
    } else {
      var asked := [Assistant(t.reply.content, t.reply.calls)];
      NothingTold(asked, Deltas(t.reply.deltas));
      CallsAreTold(t.reply.calls, t.results);
      ToldAppend(asked, Deltas(t.reply.deltas), Answers(t.reply.calls, t.results),
                 CallEvents(t.reply.calls, t.results));
    }
  }

  /** In every run the tool messages of the transcript say, one by one and in order, what the emitted results say. */
  lemma TranscriptMatchesTrace(w: World, initial: seq<Message>)
    ensures var (turns, failure) := Turns(w, initial, 0, 0);
            AllTold(MessagesOf(turns), [MessageStart] + EventsOf(turns) + ClosingEvents(failure))
  {
    hide Turns, AllTold, AllShown, Deltas;
    var (turns, failure) := Turns(w, initial, 0, 0);
    RunsAreBounded(w, initial, 0, 0);
    TurnsAreTold(turns);
    NothingReturned([MessageStart]);
    NothingTold([], [MessageStart]);
    ClosingReturnsNothing(failure);
    NothingTold([], ClosingEvents(failure));
    ToldAppend([], [MessageStart], MessagesOf(turns), EventsOf(turns));
    ToldAppend([] + MessagesOf(turns), [MessageStart] + EventsOf(turns), [], ClosingEvents(failure));
    assert [] + MessagesOf(turns) + [] == MessagesOf(turns);
  }

  // ---------- the turns are the answers of the model and of the tools ----------

  function CallsOf(turns: seq<Turn>): seq<Call>
  {
    Flat(Map(turns, (t: Turn) => t.reply.calls))
  }

  /** The turn is the answer of the model to its n-th call, with the transcript so far, and each of its calls has the
      answer of the tools to the call of that number. */
  ghost predicate Drawn(w: World, t: Turn, n: nat, messages: seq<Message>, tools: nat)
  {
    && w.model(n, messages) == Answered(t.reply) && |t.results| == |t.reply.calls|
    && forall j :: 0 <= j < |t.results| ==> t.results[j] == w.tool(tools + j, t.reply.calls[j])
  }

  ghost predicate DrawnAt(w: World, turns: seq<Turn>, i: nat, n: nat, messages: seq<Message>, tools: nat)
    requires i < |turns|
  {
    Drawn(w, turns[i], n + i, messages + MessagesOf(turns[..i]), tools + |CallsOf(turns[..i])|)
  }

  ghost predicate AllDrawn(w: World, turns: seq<Turn>, n: nat, messages: seq<Message>, tools: nat)
  {
    forall i :: 0 <= i < |turns| ==> DrawnAt(w, turns, i, n, messages, tools)
  }

  lemma FirstDrawn(w: World, t: Turn, rest: seq<Turn>, n: nat, messages: seq<Message>, tools: nat)
    requires Drawn(w, t, n, messages, tools)
    ensures DrawnAt(w, [t] + rest, 0, n, messages, tools)
  {
    hide Drawn;
    var turns := [t] + rest;
    assert turns[..0] == [] && MessagesOf([]) == [] && CallsOf([]) == [];
    assert messages + [] == messages;
  }

  lemma LaterDrawn(w: World, t: Turn, rest: seq<Turn>, i: nat, n: nat, messages: seq<Message>, tools: nat)
    requires i < |rest| && DrawnAt(w, rest, i, n + 1, messages + TurnMessages(t), tools + |t.reply.calls|)
    ensures DrawnAt(w, [t] + rest, i + 1, n, messages, tools)
  {
    hide Drawn, TurnMessages, MessagesOf, CallsOf;
    var turns := [t] + rest;
    FlatFirst(t, rest[..i]);
    assert turns[..i + 1] == [t] + rest[..i];
    assert messages + (TurnMessages(t) + MessagesOf(rest[..i])) == messages + TurnMessages(t) + MessagesOf(rest[..i]);
  }

  lemma OneMoreDrawn(w: World, t: Turn, rest: seq<Turn>, n: nat, messages: seq<Message>, tools: nat)
    requires Drawn(w, t, n, messages, tools)
    requires AllDrawn(w, rest, n + 1, messages + TurnMessages(t), tools + |t.reply.calls|)
    ensures AllDrawn(w, [t] + rest, n, messages, tools)
    ensures MessagesOf([t] + rest) == TurnMessages(t) + MessagesOf(rest)
  {
    hide DrawnAt, Drawn, TurnMessages, MessagesOf, CallsOf;
    forall i | 0 <= i < |[t] + rest|
      ensures DrawnAt(w, [t] + rest, i, n, messages, tools)
    {
      if i == 0 {
        FirstDrawn(w, t, rest, n, messages, tools);
      } else {
        assert DrawnAt(w, rest, i - 1, n + 1, messages + TurnMessages(t), tools + |t.reply.calls|);
        LaterDrawn(w, t, rest, i - 1, n, messages, tools);
      }
    }
    FlatFirst(t, rest);
  }

  lemma FlatFirst(t: Turn, rest: seq<Turn>)
    ensures MessagesOf([t] + rest) == TurnMessages(t) + MessagesOf(rest)
    ensures CallsOf([t] + rest) == t.reply.calls + CallsOf(rest)
    ensures RecordsOf([t] + rest) == TurnRecords(t) + RecordsOf(rest)
  {
    MapFirst(t, rest, (t: Turn) => TurnMessages(t));
    MapFirst(t, rest, (t: Turn) => t.reply.calls);
    MapFirst(t, rest, (t: Turn) => TurnRecords(t));
    hide TurnMessages, TurnRecords, Map;
    FlatCons(TurnMessages(t), Map(rest, (t: Turn) => TurnMessages(t)));
    FlatCons(t.reply.calls, Map(rest, (t: Turn) => t.reply.calls));
    FlatCons(TurnRecords(t), Map(rest, (t: Turn) => TurnRecords(t)));
  }

  lemma FlatCons<T>(first: seq<T>, rest: seq<seq<T>>)
    ensures Flat([first] + rest) == first + Flat(rest)
  {
    assert ([first] + rest)[1..] == rest;
  }

  /** The turns of a run are the model's answers to its calls, each made with the transcript so far, and their results
      the tools' answers, numbered through the run; a failure is the model's answer to the last call. */
  lemma {:induction false} TurnsAreDrawn(w: World, messages: seq<Message>, n: nat, tools: nat)
    requires n <= 10
    ensures var (turns, failure) := Turns(w, messages, n, tools);
            && AllDrawn(w, turns, n, messages, tools)
            && (failure.Some? ==> w.model(n + |turns|, messages + MessagesOf(turns))
                                  == Failed(failure.value.code, failure.value.message, failure.value.deltas))
    decreases 10 - n
  {
    hide Drawn, TurnMessages;
    assert messages + [] == messages && MessagesOf([]) == [];
    if n < 10 && w.model(n, messages).Answered? {
      var reply := w.model(n, messages).reply;
      var t := TurnOf(w, reply, tools);
      assert Drawn(w, t, n, messages, tools) by { TurnIsDrawn(w, reply, n, messages, tools); }
      if reply.calls == [] {
        OneMoreDrawn(w, t, [], n, messages, tools);
        assert [t] + [] == [t];
      } else {
        TurnsAreDrawn(w, messages + TurnMessages(t), n + 1, tools + |reply.calls|);
        var rest := Turns(w, messages + TurnMessages(t), n + 1, tools + |reply.calls|);
        OneMoreDrawn(w, t, rest.0, n, messages, tools);
        assert messages + (TurnMessages(t) + MessagesOf(rest.0)) == messages + TurnMessages(t) + MessagesOf(rest.0);
      }
    }
  }

  lemma TurnIsDrawn(w: World, reply: Reply, n: nat, messages: seq<Message>, tools: nat)
    requires w.model(n, messages) == Answered(reply)
    ensures Drawn(w, TurnOf(w, reply, tools), n, messages, tools)
  {
  }

  /** Each call of a run has one record, in order, with its id, its name and its arguments. */
  lemma {:induction false} RecordsMatchCalls(turns: seq<Turn>)
    requires forall i :: 0 <= i < |turns| ==> |turns[i].results| == |turns[i].reply.calls|
    ensures |RecordsOf(turns)| == |CallsOf(turns)|
    ensures forall k :: 0 <= k < |CallsOf(turns)| ==>
              var c, r := CallsOf(turns)[k], RecordsOf(turns)[k];
              r.id == c.id && r.name == c.name && r.arguments == c.arguments
    decreases |turns|
  {
    if turns != [] {
      RecordsMatchCalls(turns[1..]);
      assert turns == [turns[0]] + turns[1..];
      FlatFirst(turns[0], turns[1..]);
    }
  }

  // ---------- what is streamed and what is said ----------

  /** The text of the message deltas. */
  function StreamedText(es: seq<Event>): string
  {
    if es == [] then ""
    else (if es[0].MessageDelta? then es[0].content else "") + StreamedText(es[1..])
  }

  lemma {:induction false} StreamedAppend(a: seq<Event>, b: seq<Event>)
    ensures StreamedText(a + b) == StreamedText(a) + StreamedText(b)
  {
    if a == [] {
      assert a + b == b;
    } else {
      assert (a + b)[1..] == a[1..] + b;
      StreamedAppend(a[1..], b);
    }
  }

  lemma {:induction false} DeltasStream(texts: seq<string>)
    ensures StreamedText(Deltas(texts)) == Concat(texts)
  {
    if texts != [] {
      DeltasStream(texts[1..]);
      if texts[0] != "" {
        assert Deltas(texts) == [MessageDelta(texts[0])] + Deltas(texts[1..]);
        assert Deltas(texts)[1..] == Deltas(texts[1..]);
      }
    }
  }

  lemma {:induction false} CallsStreamNothing(calls: seq<Call>, results: seq<ToolResult>)
    requires |results| == |calls|
    ensures StreamedText(CallEvents(calls, results)) == ""
    decreases |calls|
  {
    if calls != [] {
      CallsStreamNothing(calls[1..], results[1..]);
      var es := CallEvents(calls, results);
      assert es[1..][1..] == CallEvents(calls[1..], results[1..]);
      assert StreamedText(es[1..]) == "";
    }
  }

  lemma {:induction false} TurnsStream(turns: seq<Turn>)
    requires forall i :: 0 <= i < |turns| ==> |turns[i].results| == |turns[i].reply.calls|
    ensures StreamedText(EventsOf(turns)) == Concat(Flat(Map(turns, (t: Turn) => t.reply.deltas)))
    decreases |turns|
  {
    hide Deltas, CallEvents;
    if turns != [] {
      var t := turns[0];
      TurnsStream(turns[1..]);
      DeltasStream(t.reply.deltas);
      CallsStreamNothing(t.reply.calls, t.results);
      StreamedAppend(Deltas(t.reply.deltas), CallEvents(t.reply.calls, t.results));
      StreamedAppend(TurnEvents(t), EventsOf(turns[1..]));
      ConcatAppend(t.reply.deltas, Flat(Map(turns[1..], (t: Turn) => t.reply.deltas)));
      assert Concat(t.reply.deltas) + "" == Concat(t.reply.deltas);
    }
  }

  /** Listeners get all the text that the model streamed, whether or not it then failed. */
  lemma AllTextIsStreamed(w: World, initial: seq<Message>)
    ensures var (turns, failure) := Turns(w, initial, 0, 0);
            StreamedText([MessageStart] + EventsOf(turns) + ClosingEvents(failure)) ==
            Concat(Flat(Map(turns, (t: Turn) => t.reply.deltas)))
            + (if failure.Some? then Concat(failure.value.deltas) else "")
  {
    hide Turns, Deltas;
    var (turns, failure) := Turns(w, initial, 0, 0);
    RunsAreBounded(w, initial, 0, 0);
    TurnsStream(turns);
    StreamedAppend([MessageStart], EventsOf(turns));
    StreamedAppend([MessageStart] + EventsOf(turns), ClosingEvents(failure));
    ClosingStreams(failure);
    StartStreamsNothing();
  }

  lemma StartStreamsNothing()
    ensures StreamedText([MessageStart]) == ""
  {
    assert [MessageStart][1..] == [];
  }

  lemma ClosingStreams(failure: Option<Failure>)
    ensures StreamedText(ClosingEvents(failure)) == if failure.Some? then Concat(failure.value.deltas) else ""
  {
    assert [MessageDone][1..] == [] && StreamedText([MessageDone]) == "";
    if failure.Some? {
      var f := failure.value;
      var last := [ErrorRaised(f.code, f.message)];
      assert last[1..] == [] && StreamedText(last) == "";
      DeltasStream(f.deltas);
      StreamedAppend(Deltas(f.deltas), last);
      StreamedAppend(Deltas(f.deltas) + last, [MessageDone]);
    }
  }

  /** The assistant messages of the transcript are the model's answers that called tools, with their content. */
  lemma {:induction false} AssistantsAreAnswers(turns: seq<Turn>)
    requires forall i :: 0 <= i < |turns| ==> |turns[i].results| == |turns[i].reply.calls|
    ensures Filter(MessagesOf(turns), (m: Message) => !m.ToolMessage?) ==
            Map(Filter(turns, (t: Turn) => t.reply.calls != []),
                (t: Turn) => Assistant(t.reply.content, t.reply.calls))
    decreases |turns|
  {
    hide Answers;
    var p := (m: Message) => !m.ToolMessage?;
    if turns != [] {
      var t, rest := turns[0], turns[1..];
      AssistantsAreAnswers(rest);
      FilterAppend(TurnMessages(t), MessagesOf(rest), p);
      if t.reply.calls != [] {
        var asked := [Assistant(t.reply.content, t.reply.calls)];
        FilterAppend(asked, Answers(t.reply.calls, t.results), p);
        NoAssistantIn(t.reply.calls, t.results);
        assert asked[1..] == [] && Filter(asked, p) == asked;
        assert asked + [] == asked;
        var busy := (t: Turn) => t.reply.calls != [];
        MapFirst(t, Filter(rest, busy), (t: Turn) => Assistant(t.reply.content, t.reply.calls));
      }
    }
  }

  lemma {:induction false} NoAssistantIn(calls: seq<Call>, results: seq<ToolResult>)
    requires |results| == |calls|
    ensures Filter(Answers(calls, results), (m: Message) => !m.ToolMessage?) == []
    decreases |calls|
  {
    if calls != [] {
      assert Answers(calls, results)[1..] == Answers(calls[1..], results[1..]);
      NoAssistantIn(calls[1..], results[1..]);
    }
  }
}
