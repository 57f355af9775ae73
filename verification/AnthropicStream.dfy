/** The Anthropic stream: events folded into a text and tool calls. */
module AnthropicStream {
  import opened Collections
  import opened EventLines
  import opened ChatTypes

  /** The fields of an event that the loop looks at. `JsonDelta` is an `input_json_delta`;
      a text, a partial json or a stop reason that is missing is empty. */
  datatype Event =
    | MessageStart(inputTokens: Option<int>)
    | ToolStart(id: string, name: string)
    | TextDelta(text: string)
    | JsonDelta(partial: string)
    | BlockStop
    | MessageDelta(outputTokens: Option<int>, stopReason: string)
    | Other

  datatype Assembly = Assembly(content: string, calls: seq<Call>, pending: string,
                               input: int, output: int, reason: string, chunks: seq<Chunk>)

  const START := Assembly("", [], "", 0, 0, "stop", [])

  function WithArguments(calls: seq<Call>, arguments: string): seq<Call>
    requires calls != []
  {
    calls[..|calls| - 1] + [Last(calls).(arguments := arguments)]
  }

  /** `value ?? current` */
  function Or(value: Option<int>, current: int): int
  {
    if value.Some? then value.value else current
  }

  function ReasonOf(stopReason: string, current: string): string
  {
    if stopReason == "" then current else if stopReason == "tool_use" then "tool_calls" else stopReason
  }

  function Absorb(a: Assembly, ev: Event): Assembly
  {
    match ev
    case MessageStart(tokens) => a.(input := Or(tokens, a.input))
    case ToolStart(id, name) => a.(calls := a.calls + [Call(id, name, "")], pending := "")
    case TextDelta(text) =>
      if text == "" then a else a.(content := a.content + text, chunks := a.chunks + [Text(text)])
    case JsonDelta(partial) =>
      if partial == "" then a
      else
        var pending := a.pending + partial;
        if a.calls == [] then a.(pending := pending)
        else a.(pending := pending, calls := WithArguments(a.calls, pending),
                chunks := a.chunks + [CallDelta(|a.calls| - 1, None, None, Some(partial))])
    case BlockStop => a.(pending := "")
    case MessageDelta(tokens, stopReason) =>
      a.(output := Or(tokens, a.output), reason := ReasonOf(stopReason, a.reason))
    case Other => a
  }

  function Assembled(evs: seq<Event>): Assembly
  {
    Fold(Absorb, START, evs)
  }

  /** What `chatStream` returns and what it has emitted, given the events. */
  function Answer(evs: seq<Event>): (Response, seq<Chunk>)
  {
    var a := Assembled(evs);
    var usage := UsageOf(a.input, a.output);
    (Response(a.content, a.calls, usage), a.chunks + [Closing(usage, a.reason)])
  }

  /** The read loop. `received` holds the decoded chunks of the response body. However the text was cut into
      received, the answer and the emitted chunks are those of the events on its closed lines. */
  method ChatStream(received: seq<string>, parse: string -> Option<Event>)
    returns (response: Response, chunks: seq<Chunk>)
    ensures (response, chunks) == Answer(Events(parse, ClosedLines(Concat(received))))
  {
    hide EventLines.Events, Split, Payload, Or, ReasonOf;
    var buffer, fullContent, currentToolJson, stopReason := "", "", "", "stop";
    var toolCalls: seq<Call> := [];
    var inputTokens, outputTokens := 0, 0;
    chunks := [];
    NothingReceived(parse);
    for r := 0 to |received|
      invariant buffer == OpenLine(Concat(received[..r]))
      invariant Assembly(fullContent, toolCalls, currentToolJson, inputTokens, outputTokens, stopReason, chunks)
                == Assembled(Events(parse, ClosedLines(Concat(received[..r]))))
    {
      ghost var text := Concat(received[..r]);
      OneMoreRead(parse, received, r);
      buffer := buffer + received[r];
      var lines := AllButLast(Split(buffer, '\n'));
      buffer := Last(Split(buffer, '\n'));
      ghost var before := Events(parse, ClosedLines(text));
      assert before + Events(parse, []) == before && lines[..0] == [];
      for i := 0 to |lines|
        invariant Assembly(fullContent, toolCalls, currentToolJson, inputTokens, outputTokens, stopReason, chunks)
                  == Assembled(before + Events(parse, lines[..i]))
      {
        OneMoreLine(parse, Absorb, START, before, lines, i);
        var payload := Payload(lines[i]);
        if payload.None? {
          continue;
        }
        var ev := parse(payload.value);
        if ev.None? {
          continue;
        }
        match ev.value
        case MessageStart(tokens) =>
          inputTokens := Or(tokens, inputTokens);
        case ToolStart(id, name) =>
          toolCalls := toolCalls + [Call(id, name, "")];
          currentToolJson := "";
        case TextDelta(text) =>
          if text != "" {
            fullContent := fullContent + text;
            chunks := chunks + [Text(text)];
          }
        case JsonDelta(partial) =>
          if partial != "" {
            currentToolJson := currentToolJson + partial;
            if |toolCalls| > 0 {
              toolCalls := WithArguments(toolCalls, currentToolJson);
              chunks := chunks + [CallDelta(|toolCalls| - 1, None, None, Some(partial))];
            }
          }
        case BlockStop =>
          currentToolJson := "";
        case MessageDelta(tokens, reason) =>
          outputTokens := Or(tokens, outputTokens);
          stopReason := ReasonOf(reason, stopReason);
        case Other =>
      }
      assert lines[..|lines|] == lines;
    }
    assert received[..|received|] == received;
    chunks := chunks + [Closing(UsageOf(inputTokens, outputTokens), stopReason)];
    response := Response(fullContent, toolCalls, UsageOf(inputTokens, outputTokens));
  }
}
