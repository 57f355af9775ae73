/** The Gemini stream: the same line buffer, with whole function calls instead of fragments. */
module GeminiStream {
  import opened Collections
  import opened EventLines
  import opened ChatTypes

  /** A function call with its arguments as JSON text. */
  datatype FunctionCall = FunctionCall(name: string, arguments: string)

  /** A part without text has an empty text; looking at a `Broken` part throws. */
  datatype Part = Part(text: string, call: Option<FunctionCall>) | Broken

  datatype Counts = Counts(prompt: Option<int>, candidates: Option<int>)

  datatype Event = Event(parts: seq<Part>, usage: Option<Counts>, finishReason: string)

  datatype Assembly = Assembly(content: string, calls: seq<Call>, input: int, output: int, reason: string,
                               chunks: seq<Chunk>)

  const START := Assembly("", [], 0, 0, "stop", [])

  /** A value of `gemini-<now>-<n>` for the n-th call. */
  type NewId = nat -> string

  function AbsorbText(a: Assembly, text: string): Assembly
  {
    if text == "" then a else a.(content := a.content + text, chunks := a.chunks + [Text(text)])
  }

  function AbsorbCall(newId: NewId, a: Assembly, call: Option<FunctionCall>): Assembly
  {
    if call.None? then a
    else
      var c := Call(newId(|a.calls|), call.value.name, call.value.arguments);
      a.(calls := a.calls + [c],
         chunks := a.chunks + [CallDelta(|a.calls|, Some(c.id), Some(c.name), Some(c.arguments))])
  }

  /** The parts up to the first broken one. */
  function Intact(parts: seq<Part>): seq<Part>
  {
    if parts == [] || parts[0].Broken? then [] else [parts[0]] + Intact(parts[1..])
  }

  function AbsorbPart(newId: NewId, a: Assembly, p: Part): Assembly
  {
    if p.Broken? then a else AbsorbCall(newId, AbsorbText(a, p.text), p.call)
  }

  function AbsorbParts(newId: NewId, a: Assembly, parts: seq<Part>): Assembly
  {
    Fold((s: Assembly, p: Part) => AbsorbPart(newId, s, p), a, Intact(parts))
  }

  /** The end of an event, which an exception in its parts skips. */
  function AbsorbEnd(a: Assembly, ev: Event): Assembly
  {
    a.(input := if ev.usage.Some? && ev.usage.value.prompt.Some? then ev.usage.value.prompt.value else a.input,
       output := if ev.usage.Some? && ev.usage.value.candidates.Some?
                 then ev.usage.value.candidates.value else a.output,
       reason := if ev.finishReason == "" then a.reason
                 else if ev.finishReason == "STOP" then "stop" else ev.finishReason)
  }

  function Absorb(newId: NewId, a: Assembly, ev: Event): Assembly
  {
    var b := AbsorbParts(newId, a, ev.parts);
    if Broken in ev.parts then b else AbsorbEnd(b, ev)
  }

  function Assembled(newId: NewId, evs: seq<Event>): Assembly
  {
    Fold((s: Assembly, ev: Event) => Absorb(newId, s, ev), START, evs)
  }

  function Answer(newId: NewId, evs: seq<Event>): (Response, seq<Chunk>)
  {
    var a := Assembled(newId, evs);
    var usage := UsageOf(a.input, a.output);
    (Response(a.content, a.calls, usage), a.chunks + [Closing(usage, a.reason)])
  }

  lemma {:induction false} IntactIsPrefix(parts: seq<Part>, i: nat)
    requires i < |parts| && Broken !in parts[..i]
    ensures Intact(parts[..i]) == parts[..i]
    ensures if parts[i].Broken? then Intact(parts) == parts[..i] else Intact(parts[..i + 1]) == parts[..i + 1]
    decreases i
  {
    if i > 0 {
      assert parts[1..][..i - 1] == parts[..i][1..];
      assert parts[1..][..i] == parts[..i + 1][1..];
      assert parts[0] in parts[..i];
      IntactIsPrefix(parts[1..], i - 1);
      assert parts[..i] == [parts[0]] + parts[1..][..i - 1];
    }
  }

  lemma {:induction false} AllIntact(parts: seq<Part>)
    requires Broken !in parts
    ensures Intact(parts) == parts
  {
    if parts != [] {
      AllIntact(parts[1..]);
    }
  }

  /** One part more of an event. */
  lemma OneMorePart(newId: NewId, a: Assembly, parts: seq<Part>, i: nat)
    requires i < |parts| && Broken !in parts[..i]
    ensures if parts[i].Broken? then AbsorbParts(newId, a, parts) == AbsorbParts(newId, a, parts[..i])
            else AbsorbParts(newId, a, parts[..i + 1]) == AbsorbPart(newId, AbsorbParts(newId, a, parts[..i]), parts[i])
  {
    hide AbsorbPart, Intact;
    IntactIsPrefix(parts, i);
    if !parts[i].Broken? {
      assert parts[..i + 1] == parts[..i] + [parts[i]];
      FoldOne((s: Assembly, p: Part) => AbsorbPart(newId, s, p), a, parts[..i], parts[i]);
    }
  }

  /** The read loop: as for Anthropic, only the closed lines of the whole text matter. */
  method ChatStream(received: seq<string>, parse: string -> Option<Event>, newId: NewId)
    returns (response: Response, chunks: seq<Chunk>)
    ensures (response, chunks) == Answer(newId, Events(parse, ClosedLines(Concat(received))))
  {
    hide EventLines.Events, Split, Payload, Absorb;
    ghost var absorb := (s: Assembly, ev: Event) => Absorb(newId, s, ev);
    var buffer := "";
    var a := START;
    NothingReceived(parse);
    for r := 0 to |received|
      invariant buffer == OpenLine(Concat(received[..r]))
      invariant a == Fold(absorb, START, Events(parse, ClosedLines(Concat(received[..r]))))
    {
      OneMoreRead(parse, received, r);
      ghost var before := Events(parse, ClosedLines(Concat(received[..r])));
      assert before + Events(parse, []) == before;
      buffer := buffer + received[r];
      var lines := AllButLast(Split(buffer, '\n'));
      buffer := Last(Split(buffer, '\n'));
      assert lines[..0] == [];
      for i := 0 to |lines|
        invariant a == Fold(absorb, START, before + Events(parse, lines[..i]))
      {
        OneMoreLine(parse, absorb, START, before, lines, i);
        var payload := Payload(lines[i]);
        if payload.None? {
          continue;
        }
        var ev := parse(payload.value);
        if ev.None? {
          continue;
        }
        a := AbsorbEvent(a, ev.value, newId);
      }
      assert lines[..|lines|] == lines;
    }
    assert received[..|received|] == received;
    chunks := a.chunks + [Closing(UsageOf(a.input, a.output), a.reason)];
    response := Response(a.content, a.calls, UsageOf(a.input, a.output));
  }

  /** The body of the `try`: the loop over the parts and then the counts; a broken part ends it early. */
  method AbsorbEvent(a: Assembly, ev: Event, newId: NewId) returns (b: Assembly)
    ensures b == Absorb(newId, a, ev)
  {
    assert AbsorbParts(newId, a, []) == a;
    hide AbsorbPart, AbsorbEnd, Intact;
    b := a;
    for i := 0 to |ev.parts|
      invariant Broken !in ev.parts[..i]
      invariant b == AbsorbParts(newId, a, ev.parts[..i])
    {
      OneMorePart(newId, a, ev.parts, i);
      if ev.parts[i].Broken? {
        return;
      }
      b := AbsorbPart(newId, b, ev.parts[i]);
    }
    assert ev.parts[..|ev.parts|] == ev.parts;
    b := AbsorbEnd(b, ev);
  }

  // ---------- what listeners see ----------

  /** How a call is announced. */
  function Announced(n: nat, c: Call): Chunk
  {
    CallDelta(n, Some(c.id), Some(c.name), Some(c.arguments))
  }

  /** Listeners get the whole text, and each call once, whole and under its index. */
  ghost predicate Faithful(a: Assembly)
  {
    && a.content == EmittedText(a.chunks)
    && CallChunks(a.chunks) == seq(|a.calls|, n requires 0 <= n < |a.calls| => Announced(n, a.calls[n]))
  }

  lemma PartKeepsFaithful(newId: NewId, a: Assembly, p: Part)
    requires Faithful(a)
    ensures Faithful(AbsorbPart(newId, a, p))
  {
    hide EmittedText, CallChunks;
    if p.Part? {
      var b := AbsorbText(a, p.text);
      CallChunksOneMore(a.chunks, Text(p.text));
      assert CallChunks(a.chunks) + [] == CallChunks(a.chunks);
      if p.call.Some? {
        var c := AbsorbCall(newId, b, p.call);
        CallChunksOneMore(b.chunks, c.chunks[|b.chunks|]);
        assert b.content + "" == b.content;
      }
    }
  }

  lemma {:induction false} PartsKeepFaithful(newId: NewId, a: Assembly, parts: seq<Part>)
    requires Faithful(a)
    ensures Faithful(Fold((s: Assembly, p: Part) => AbsorbPart(newId, s, p), a, parts))
    decreases |parts|
  {
    hide AbsorbPart, Faithful;
    if parts != [] {
      PartKeepsFaithful(newId, a, parts[0]);
      PartsKeepFaithful(newId, AbsorbPart(newId, a, parts[0]), parts[1..]);
    }
  }

  lemma {:induction false} EventsKeepFaithful(newId: NewId, a: Assembly, evs: seq<Event>)
    requires Faithful(a)
    ensures Faithful(Fold((s: Assembly, ev: Event) => Absorb(newId, s, ev), a, evs))
    decreases |evs|
  {
    hide AbsorbPart, Intact, EmittedText, CallChunks;
    if evs != [] {
      PartsKeepFaithful(newId, a, Intact(evs[0].parts));
      EventsKeepFaithful(newId, Absorb(newId, a, evs[0]), evs[1..]);
    }
  }

  /** For every stream: the content is the emitted text, and the calls are those announced, each once and in order. */
  lemma AnswerIsEmitted(newId: NewId, evs: seq<Event>)
    ensures Faithful(Assembled(newId, evs))
  {
    hide Absorb;
    assert Concat(Map([], TextOf)) == "" && CallChunks([]) == [];
    EventsKeepFaithful(newId, START, evs);
  }

  // ---------- all parts, counts and the reason to stop ----------

  /** The intact parts are those before the first broken one. */
  lemma {:induction false} IntactIff(parts: seq<Part>)
    ensures var n := |Intact(parts)|;
            && n <= |parts| && Intact(parts) == parts[..n] && Broken !in parts[..n]
            && (n < |parts| ==> parts[n] == Broken)
  {
    if parts != [] && !parts[0].Broken? {
      IntactIff(parts[1..]);
      assert parts == [parts[0]] + parts[1..];
    }
  }

  function PartsOf(evs: seq<Event>): seq<Part>
  {
    if evs == [] then [] else Intact(evs[0].parts) + PartsOf(evs[1..])
  }

  const TEXT: Part -> string := (p: Part) => if p.Broken? then "" else p.text

  /** The calls of the parts, with ids numbered from `n` on. */
  function Numbered(newId: NewId, n: nat, parts: seq<Part>): seq<Call>
    decreases |parts|
  {
    if parts == [] then []
    else if parts[0].Broken? || parts[0].call.None? then Numbered(newId, n, parts[1..])
    else
      var call := parts[0].call.value;
      [Call(newId(n), call.name, call.arguments)] + Numbered(newId, n + 1, parts[1..])
  }

  lemma {:induction false} NumberedAppend(newId: NewId, n: nat, a: seq<Part>, b: seq<Part>)
    ensures Numbered(newId, n, a + b) == Numbered(newId, n, a) + Numbered(newId, n + |Numbered(newId, n, a)|, b)
    decreases |a|
  {
    if a == [] {
      assert a + b == b;
    } else {
      assert (a + b)[1..] == a[1..] + b;
      NumberedAppend(newId, if a[0].Broken? || a[0].call.None? then n else n + 1, a[1..], b);
    }
  }

  /** The assembly has all that the parts add. */
  ghost predicate Adds(newId: NewId, a: Assembly, b: Assembly, parts: seq<Part>)
  {
    && b.content == a.content + Concat(Map(parts, TEXT))
    && b.calls == a.calls + Numbered(newId, |a.calls|, parts)
    && b.input == a.input && b.output == a.output && b.reason == a.reason
  }

  lemma {:induction false} PartsAreAdded(newId: NewId, a: Assembly, parts: seq<Part>)
    ensures Adds(newId, a, Fold((s: Assembly, p: Part) => AbsorbPart(newId, s, p), a, parts), parts)
    decreases |parts|
  {
    if parts == [] {
      assert a.content + "" == a.content;
    } else {
      var b := AbsorbPart(newId, a, parts[0]);
      PartsAreAdded(newId, b, parts[1..]);
      assert a.content + (TEXT(parts[0]) + Concat(Map(parts[1..], TEXT)))
             == a.content + TEXT(parts[0]) + Concat(Map(parts[1..], TEXT));
      assert b.content == a.content + TEXT(parts[0]);
    }
  }

  const PROMPT: Event -> Option<int> :=
    (e: Event) => if Broken in e.parts || e.usage.None? then None else e.usage.value.prompt

  const CANDIDATES: Event -> Option<int> :=
    (e: Event) => if Broken in e.parts || e.usage.None? then None else e.usage.value.candidates

  const REASON: Event -> Option<string> :=
    (e: Event) =>
      if Broken in e.parts || e.finishReason == "" then None
      else Some(if e.finishReason == "STOP" then "stop" else e.finishReason)

  ghost predicate Complete(newId: NewId, evs: seq<Event>, a: Assembly)
  {
    && a.content == Concat(Map(PartsOf(evs), TEXT)) && a.calls == Numbered(newId, 0, PartsOf(evs))
    && IsLast(evs, PROMPT, 0, a.input) && IsLast(evs, CANDIDATES, 0, a.output) && IsLast(evs, REASON, "stop", a.reason)
  }

  lemma {:induction false} PartsOneMore(evs: seq<Event>, e: Event)
    ensures PartsOf(evs + [e]) == PartsOf(evs) + Intact(e.parts)
  {
    if evs == [] {
      assert [e][1..] == [] && evs + [e] == [e];
      assert Intact(e.parts) + [] == Intact(e.parts);
    } else {
      assert (evs + [e])[1..] == evs[1..] + [e];
      PartsOneMore(evs[1..], e);
    }
  }

  lemma {:induction false} EventsAreComplete(newId: NewId, evs: seq<Event>)
    ensures Complete(newId, evs, Assembled(newId, evs))
    decreases |evs|
  {
    hide Absorb, IsLast, Intact, Numbered;
    if evs == [] {
      NothingIsComplete(newId);
    } else {
      var before, e := evs[..|evs| - 1], evs[|evs| - 1];
      assert evs == before + [e];
      EventsAreComplete(newId, before);
      FoldOne((s: Assembly, ev: Event) => Absorb(newId, s, ev), START, before, e);
      EventIsComplete(newId, before, e, Assembled(newId, before));
    }
  }

  lemma NothingIsComplete(newId: NewId)
    ensures Complete(newId, [], START)
  {
  }

  lemma EventIsComplete(newId: NewId, evs: seq<Event>, e: Event, a: Assembly)
    requires Complete(newId, evs, a)
    ensures Complete(newId, evs + [e], Absorb(newId, a, e))
  {
    hide IsLast, Intact, Numbered, AbsorbPart, PartsOf, Map;
    var parts := Intact(e.parts);
    PartsAreAdded(newId, a, parts);
    PartsOneMore(evs, e);
    MapAppend(PartsOf(evs), parts, TEXT);
    ConcatAppend(Map(PartsOf(evs), TEXT), Map(parts, TEXT));
    NumberedAppend(newId, 0, PartsOf(evs), parts);
    LastOneMore(evs, e, PROMPT, 0, a.input);
    LastOneMore(evs, e, CANDIDATES, 0, a.output);
    LastOneMore(evs, e, REASON, "stop", a.reason);
  }

  /** For every stream: the content is the text of all intact parts, the calls are theirs in order, the counts and the
      reason to stop are those last reported by an event without broken parts, and the last chunk repeats them. */
  lemma AnswerIsComplete(newId: NewId, evs: seq<Event>)
    ensures var (response, chunks) := Answer(newId, evs);
            && response.content == Concat(Map(PartsOf(evs), TEXT)) && response.calls == Numbered(newId, 0, PartsOf(evs))
            && IsLast(evs, PROMPT, 0, response.usage.input) && IsLast(evs, CANDIDATES, 0, response.usage.output)
            && response.usage.total == response.usage.input + response.usage.output
            && |chunks| > 0 && chunks[|chunks| - 1].Closing?
            && chunks[|chunks| - 1].usage == response.usage && IsLast(evs, REASON, "stop", chunks[|chunks| - 1].reason)
            && response.content == EmittedText(chunks[..|chunks| - 1])
  {
    hide Assembled, IsLast, EmittedText, CallChunks, Numbered, PartsOf;
    EventsAreComplete(newId, evs);
    AnswerIsEmitted(newId, evs);
    var a := Assembled(newId, evs);
    assert Answer(newId, evs).1[..|Answer(newId, evs).1| - 1] == a.chunks;
  }

  /** Events printed as `data:` lines, cut into reads anywhere, give the answer of the events themselves. */
  lemma StreamedEventsComeThrough(show: Event -> string, parse: string -> Option<Event>, newId: NewId,
                                  received: seq<string>, evs: seq<Event>)
    requires Codec(show, parse) && Concat(received) == Printed(show, evs)
    ensures Answer(newId, Events(parse, ClosedLines(Concat(received)))) == Answer(newId, evs)
  {
    PrintedReadsBack(show, parse, evs);
  }
}
