/** What the Anthropic fold makes of a stream, block by block and call by call. */
module AnthropicBlocks {
  import opened Collections
  import opened EventLines
  import opened ChatTypes
  import opened AnthropicStream

  // ---------- what listeners see ----------

  lemma AssembledOneMore(evs: seq<Event>, e: Event)
    ensures Assembled(evs + [e]) == Absorb(Assembled(evs), e)
  {
    FoldOne(Absorb, START, evs, e);
  }

  lemma {:induction false} TextIsEmitted(evs: seq<Event>)
    ensures EmittedText(Assembled(evs).chunks) == Assembled(evs).content
    decreases |evs|
  {
    hide Assembled, EmittedText;
    if evs == [] {
      NothingAssembled();
    } else {
      var before, e := evs[..|evs| - 1], evs[|evs| - 1];
      assert evs == before + [e];
      TextIsEmitted(before);
      AssembledOneMore(before, e);
      var a := Assembled(before);
      forall c: Chunk ensures EmittedText(a.chunks + [c]) == EmittedText(a.chunks) + TextOf(c) {
        EmittedOneMore(a.chunks, c, 0);
      }
      assert a.content + "" == a.content;
    }
  }

  lemma NothingAssembled()
    ensures Assembled([]) == START && EmittedText([]) == "" && forall n :: EmittedArguments([], n) == ""
  {
  }

  // ---------- when arguments get lost ----------

  /** How many calls have started. */
  function Starts(evs: seq<Event>): nat
  {
    if evs == [] then 0 else Starts(evs[..|evs| - 1]) + (if evs[|evs| - 1].ToolStart? then 1 else 0)
  }

  predicate IsDelta(e: Event)
  {
    e.JsonDelta? && e.partial != ""
  }

  /** Call `n` has received a fragment. */
  ghost predicate Opened(evs: seq<Event>, n: nat)
  {
    exists i :: 0 <= i < |evs| && IsDelta(evs[i]) && Starts(evs[..i]) == n + 1
  }

  /** Call `n` has received a fragment and then a stop. */
  ghost predicate Shut(evs: seq<Event>, n: nat)
  {
    exists i, j :: 0 <= i < j < |evs| && IsDelta(evs[i]) && Starts(evs[..i]) == n + 1 && evs[j].BlockStop?
  }

  /** A fragment of call `n` comes after a stop that came after another fragment of it. */
  ghost predicate Torn(evs: seq<Event>, n: nat)
  {
    exists k :: 0 <= k < |evs| && IsDelta(evs[k]) && Starts(evs[..k]) == n + 1 && Shut(evs[..k], n)
  }

  lemma PrefixesStay(evs: seq<Event>, e: Event)
    ensures forall i :: 0 <= i <= |evs| ==> (evs + [e])[..i] == evs[..i]
    ensures evs[..|evs|] == evs
  {
  }

  lemma OpenedOneMore(evs: seq<Event>, e: Event, n: nat)
    ensures Opened(evs + [e], n) <==> Opened(evs, n) || (IsDelta(e) && Starts(evs) == n + 1)
  {
    var all := evs + [e];
    PrefixesStay(evs, e);
    if Opened(all, n) {
      var i :| 0 <= i < |all| && IsDelta(all[i]) && Starts(all[..i]) == n + 1;
      if i < |evs| {
        assert IsDelta(evs[i]) && Starts(evs[..i]) == n + 1;
      }
    }
    if Opened(evs, n) {
      var i :| 0 <= i < |evs| && IsDelta(evs[i]) && Starts(evs[..i]) == n + 1;
      assert IsDelta(all[i]) && Starts(all[..i]) == n + 1;
    }
    if IsDelta(e) && Starts(evs) == n + 1 {
      assert IsDelta(all[|evs|]) && Starts(all[..|evs|]) == n + 1;
    }
  }

  lemma ShutOneMore(evs: seq<Event>, e: Event, n: nat)
    ensures Shut(evs + [e], n) <==> Shut(evs, n) || (e.BlockStop? && Opened(evs, n))
  {
    var all := evs + [e];
    PrefixesStay(evs, e);
    if Shut(all, n) {
      var i, j :| 0 <= i < j < |all| && IsDelta(all[i]) && Starts(all[..i]) == n + 1 && all[j].BlockStop?;
      assert IsDelta(evs[i]) && Starts(evs[..i]) == n + 1;
      if j < |evs| {
        assert evs[j].BlockStop?;
      }
    }
    if Shut(evs, n) {
      var i, j :| 0 <= i < j < |evs| && IsDelta(evs[i]) && Starts(evs[..i]) == n + 1 && evs[j].BlockStop?;
      assert IsDelta(all[i]) && Starts(all[..i]) == n + 1 && all[j].BlockStop?;
    }
    if e.BlockStop? && Opened(evs, n) {
      var i :| 0 <= i < |evs| && IsDelta(evs[i]) && Starts(evs[..i]) == n + 1;
      assert IsDelta(all[i]) && Starts(all[..i]) == n + 1 && all[|evs|].BlockStop?;
    }
  }

  lemma TornOneMore(evs: seq<Event>, e: Event, n: nat)
    ensures Torn(evs + [e], n) <==> Torn(evs, n) || (IsDelta(e) && Shut(evs, n) && Starts(evs) == n + 1)
  {
    hide Shut, Starts;
    var all := evs + [e];
    PrefixesStay(evs, e);
    if Torn(all, n) {
      var k :| 0 <= k < |all| && IsDelta(all[k]) && Starts(all[..k]) == n + 1 && Shut(all[..k], n);
      if k < |evs| {
        assert IsDelta(evs[k]) && Starts(evs[..k]) == n + 1 && Shut(evs[..k], n);
      }
    }
    if Torn(evs, n) {
      var k :| 0 <= k < |evs| && IsDelta(evs[k]) && Starts(evs[..k]) == n + 1 && Shut(evs[..k], n);
      assert IsDelta(all[k]) && Starts(all[..k]) == n + 1 && Shut(all[..k], n);
    }
    if IsDelta(e) && Shut(evs, n) && Starts(evs) == n + 1 {
      assert IsDelta(all[|evs|]) && Starts(all[..|evs|]) == n + 1 && Shut(all[..|evs|], n);
    }
  }

  lemma {:induction false} CallsAreStarts(evs: seq<Event>)
    ensures |Assembled(evs).calls| == Starts(evs)
    decreases |evs|
  {
    hide Assembled;
    if evs == [] {
      NothingAssembled();
    } else {
      var before, e := evs[..|evs| - 1], evs[|evs| - 1];
      assert evs == before + [e];
      CallsAreStarts(before);
      AssembledOneMore(before, e);
    }
  }

  /** A call that has not started has no fragments. */
  lemma {:induction false} LaterCallsAreEmpty(evs: seq<Event>, n: nat)
    requires Starts(evs) <= n
    ensures EmittedArguments(Assembled(evs).chunks, n) == "" && !Opened(evs, n) && !Shut(evs, n) && !Torn(evs, n)
    decreases |evs|
  {
    hide Assembled, EmittedArguments;
    if evs == [] {
      NothingAssembled();
    } else {
      var before, e := evs[..|evs| - 1], evs[|evs| - 1];
      assert evs == before + [e];
      LaterCallsAreEmpty(before, n);
      CallsAreStarts(before);
      OneMoreEvent(before, e, n);
    }
  }

  lemma AbsorbEmits(a: Assembly, e: Event, n: nat)
    ensures EmittedArguments(Absorb(a, e).chunks, n) ==
            EmittedArguments(a.chunks, n) + (if IsDelta(e) && |a.calls| == n + 1 then e.partial else "")
  {
    hide EmittedArguments;
    forall c: Chunk
      ensures EmittedArguments(a.chunks + [c], n) == EmittedArguments(a.chunks, n) + ArgumentsOf(c, n)
    {
      EmittedOneMore(a.chunks, c, n);
    }
    assert EmittedArguments(a.chunks, n) + "" == EmittedArguments(a.chunks, n);
  }

  /** All that one more event changes for call `n`. */
  lemma OneMoreEvent(evs: seq<Event>, e: Event, n: nat)
    ensures var a, b := Assembled(evs), Assembled(evs + [e]);
            && b == Absorb(a, e)
            && EmittedArguments(b.chunks, n) ==
               EmittedArguments(a.chunks, n) + (if IsDelta(e) && |a.calls| == n + 1 then e.partial else "")
    ensures Starts(evs + [e]) == Starts(evs) + (if e.ToolStart? then 1 else 0)
    ensures Opened(evs + [e], n) <==> Opened(evs, n) || (IsDelta(e) && Starts(evs) == n + 1)
    ensures Shut(evs + [e], n) <==> Shut(evs, n) || (e.BlockStop? && Opened(evs, n))
    ensures Torn(evs + [e], n) <==> Torn(evs, n) || (IsDelta(e) && Shut(evs, n) && Starts(evs) == n + 1)
  {
    assert (evs + [e])[..|evs|] == evs;
    assert Starts(evs + [e]) == Starts(evs) + (if e.ToolStart? then 1 else 0);
    hide Assembled, EmittedArguments, Torn, Shut, Opened, Starts, EmittedText, Absorb;
    AssembledOneMore(evs, e);
    AbsorbEmits(Assembled(evs), e, n);
    OpenedOneMore(evs, e, n);
    ShutOneMore(evs, e, n);
    TornOneMore(evs, e, n);
  }

  /** How the arguments of call `n`, the emitted ones and the pending ones are related. */
  ghost predicate Tracked(evs: seq<Event>, n: nat)
    requires n < |Assembled(evs).calls|
  {
    var a := Assembled(evs);
    var arguments, emitted := a.calls[n].arguments, EmittedArguments(a.chunks, n);
    && (!Torn(evs, n) ==> arguments == emitted)
    && (Torn(evs, n) ==> |arguments| < |emitted|)
    && (Opened(evs, n) <==> emitted != "")
    && (Torn(evs, n) ==> Shut(evs, n)) && (Shut(evs, n) ==> Opened(evs, n))
    && (n == |a.calls| - 1 ==>
          && (!Shut(evs, n) ==> a.pending == arguments)
          && (Shut(evs, n) && !Torn(evs, n) ==> a.pending == "")
          && (Torn(evs, n) ==> |a.pending| < |emitted|))
  }

  lemma {:induction false} EveryCallIsTracked(evs: seq<Event>, n: nat)
    requires n < |Assembled(evs).calls|
    ensures Tracked(evs, n)
    decreases |evs|
  {
    hide Assembled, EmittedArguments, Torn, Shut, Opened, Starts, EmittedText;
    if evs == [] {
      NothingAssembled();
      assert false;
    } else {
      var before, e := evs[..|evs| - 1], evs[|evs| - 1];
      assert evs == before + [e];
      CallsAreStarts(before);
      OneMoreEvent(before, e, n);
      if n < |Assembled(before).calls| {
        EveryCallIsTracked(before, n);
      } else {
        LaterCallsAreEmpty(before, n);
      }
    }
  }

  /** For every stream, bracketed or not: a call's arguments are the fragments emitted for it exactly when
      no stop comes between two of its fragments; otherwise the earlier fragments are lost. */
  lemma ArgumentsAreEmittedIffNotTorn(evs: seq<Event>, n: nat)
    requires n < |Assembled(evs).calls|
    ensures var a := Assembled(evs);
            a.calls[n].arguments == EmittedArguments(a.chunks, n) <==> !Torn(evs, n)
  {
    EveryCallIsTracked(evs, n);
  }

  // ---------- properly bracketed streams ----------

  datatype Block = TextBlock(texts: seq<string>) | ToolBlock(id: string, name: string, partials: seq<string>)

  /** The events of a block, between its start and its stop. */
  function BlockEvents(b: Block): seq<Event>
  {
    match b
    case TextBlock(texts) => [Other] + Map(texts, (t: string) => TextDelta(t)) + [BlockStop]
    case ToolBlock(id, name, partials) =>
      [ToolStart(id, name)] + Map(partials, (p: string) => JsonDelta(p)) + [BlockStop]
  }

  function AllEvents(blocks: seq<Block>): seq<Event>
  {
    if blocks == [] then [] else BlockEvents(blocks[0]) + AllEvents(blocks[1..])
  }

  /** The events of a message. */
  function Message(input: int, blocks: seq<Block>, output: int, stopReason: string): seq<Event>
  {
    [MessageStart(Some(input))] + AllEvents(blocks) + [MessageDelta(Some(output), stopReason), Other]
  }

  function BlockText(b: Block): string
  {
    if b.TextBlock? then Concat(b.texts) else ""
  }

  function BlockCalls(b: Block): seq<Call>
  {
    if b.ToolBlock? then [Call(b.id, b.name, Concat(b.partials))] else []
  }

  function TextOfBlocks(blocks: seq<Block>): string
  {
    if blocks == [] then "" else BlockText(blocks[0]) + TextOfBlocks(blocks[1..])
  }

  function CallsOfBlocks(blocks: seq<Block>): seq<Call>
  {
    if blocks == [] then [] else BlockCalls(blocks[0]) + CallsOfBlocks(blocks[1..])
  }

  /** What an assembly has gathered, apart from what it has emitted. */
  ghost predicate Gathered(a: Assembly, content: string, calls: seq<Call>, pending: string, input: int, output: int,
                           reason: string)
  {
    a == Assembly(content, calls, pending, input, output, reason, a.chunks)
  }

  /** Every call's arguments are what was emitted for its index. */
  ghost predicate Faithful(a: Assembly)
  {
    && (forall n: nat :: n < |a.calls| ==> a.calls[n].arguments == EmittedArguments(a.chunks, n))
    && (forall n: nat :: n >= |a.calls| ==> EmittedArguments(a.chunks, n) == "")
  }

  lemma TextKeepsFaithful(a: Assembly, text: string)
    requires Faithful(a)
    ensures Faithful(Absorb(a, TextDelta(text)))
  {
    hide EmittedArguments;
    var b := Absorb(a, TextDelta(text));
    forall n: nat ensures EmittedArguments(b.chunks, n) == EmittedArguments(a.chunks, n) {
      EmittedOneMore(a.chunks, Text(text), n);
      assert EmittedArguments(a.chunks, n) + "" == EmittedArguments(a.chunks, n);
    }
  }

  lemma PartialKeepsFaithful(a: Assembly, partial: string)
    requires Faithful(a) && a.calls != [] && a.pending == Last(a.calls).arguments
    ensures Faithful(Absorb(a, JsonDelta(partial)))
  {
    hide EmittedArguments;
    var c := CallDelta(|a.calls| - 1, None, None, Some(partial));
    forall n: nat
      ensures EmittedArguments(a.chunks + [c], n) == EmittedArguments(a.chunks, n) + ArgumentsOf(c, n)
      ensures EmittedArguments(a.chunks, n) + "" == EmittedArguments(a.chunks, n)
    {
      EmittedOneMore(a.chunks, c, n);
    }
  }

  lemma {:induction false} TextsGather(a: Assembly, texts: seq<string>)
    ensures Gathered(Fold(Absorb, a, Map(texts, (t: string) => TextDelta(t))),
                     a.content + Concat(texts), a.calls, a.pending, a.input, a.output, a.reason)
    ensures Faithful(a) ==> Faithful(Fold(Absorb, a, Map(texts, (t: string) => TextDelta(t))))
    decreases |texts|
  {
    hide Faithful;
    if texts == [] {
      assert a.content + "" == a.content;
    } else {
      var b := Absorb(a, TextDelta(texts[0]));
      assert Map(texts, (t: string) => TextDelta(t))[1..] == Map(texts[1..], (t: string) => TextDelta(t));
      TextsGather(b, texts[1..]);
      if Faithful(a) {
        TextKeepsFaithful(a, texts[0]);
      }
      assert b.content == a.content + texts[0];
      assert a.content + texts[0] + Concat(texts[1..]) == a.content + (texts[0] + Concat(texts[1..]));
    }
  }

  lemma {:induction false} PartialsGather(a: Assembly, id: string, name: string, before: seq<Call>,
                                          partials: seq<string>)
    requires a.calls == before + [Call(id, name, a.pending)]
    ensures Gathered(Fold(Absorb, a, Map(partials, (p: string) => JsonDelta(p))),
                     a.content, before + [Call(id, name, a.pending + Concat(partials))], a.pending + Concat(partials),
                     a.input, a.output, a.reason)
    ensures Faithful(a) ==> Faithful(Fold(Absorb, a, Map(partials, (p: string) => JsonDelta(p))))
    decreases |partials|
  {
    hide Faithful;
    if partials == [] {
      assert a.pending + "" == a.pending;
    } else {
      var b := Absorb(a, JsonDelta(partials[0]));
      assert Map(partials, (p: string) => JsonDelta(p))[1..] == Map(partials[1..], (p: string) => JsonDelta(p));
      assert b.pending == a.pending + partials[0];
      assert b.calls == before + [Call(id, name, b.pending)];
      PartialsGather(b, id, name, before, partials[1..]);
      if Faithful(a) {
        PartialKeepsFaithful(a, partials[0]);
      }
      assert b.pending + Concat(partials[1..]) == a.pending + Concat(partials);
    }
  }

  /** A block adds its text and its call, and leaves nothing pending. */
  lemma BlockGathers(a: Assembly, block: Block)
    requires a.pending == ""
    ensures Gathered(Fold(Absorb, a, BlockEvents(block)),
                     a.content + BlockText(block), a.calls + BlockCalls(block), "", a.input, a.output, a.reason)
    ensures Faithful(a) ==> Faithful(Fold(Absorb, a, BlockEvents(block)))
  {
    hide Absorb, EmittedArguments;
    var evs := BlockEvents(block);
    match block
    case TextBlock(texts) =>
      var inner := Map(texts, (t: string) => TextDelta(t));
      FoldFirst(a, Other, inner + [BlockStop]);
      assert evs == [Other] + (inner + [BlockStop]);
      OtherAndStop(a);
      FoldOne(Absorb, a, inner, BlockStop);
      TextsGather(a, texts);
      OtherAndStop(Fold(Absorb, a, inner));
      assert a.calls + [] == a.calls;
    case ToolBlock(id, name, partials) =>
      var inner := Map(partials, (p: string) => JsonDelta(p));
      var b := Absorb(a, ToolStart(id, name));
      FoldFirst(a, ToolStart(id, name), inner + [BlockStop]);
      assert evs == [ToolStart(id, name)] + (inner + [BlockStop]);
      CallStarts(a, id, name);
      FoldOne(Absorb, b, inner, BlockStop);
      PartialsGather(b, id, name, a.calls, partials);
      OtherAndStop(Fold(Absorb, b, inner));
      assert "" + Concat(partials) == Concat(partials) && a.content + "" == a.content;
  }

  lemma CallStarts(a: Assembly, id: string, name: string)
    ensures Absorb(a, ToolStart(id, name)) == a.(calls := a.calls + [Call(id, name, "")], pending := "")
  {
  }

  lemma FoldFirst(a: Assembly, e: Event, evs: seq<Event>)
    ensures Fold(Absorb, a, [e] + evs) == Fold(Absorb, Absorb(a, e), evs)
  {
    hide Absorb;
    assert ([e] + evs)[1..] == evs;
  }

  lemma OtherAndStop(a: Assembly)
    ensures Absorb(a, Other) == a && Absorb(a, BlockStop) == a.(pending := "")
  {
  }

  lemma {:induction false} BlocksGather(a: Assembly, blocks: seq<Block>)
    requires a.pending == ""
    ensures Gathered(Fold(Absorb, a, AllEvents(blocks)),
                     a.content + TextOfBlocks(blocks), a.calls + CallsOfBlocks(blocks), "", a.input, a.output, a.reason)
    ensures Faithful(a) ==> Faithful(Fold(Absorb, a, AllEvents(blocks)))
    decreases |blocks|
  {
    hide Absorb, BlockText, BlockCalls, BlockEvents, Faithful;
    if blocks == [] {
      assert a.content + "" == a.content && a.calls + [] == a.calls;
    } else {
      var b := Fold(Absorb, a, BlockEvents(blocks[0]));
      BlockGathers(a, blocks[0]);
      FoldAppend(Absorb, a, BlockEvents(blocks[0]), AllEvents(blocks[1..]));
      BlocksGather(b, blocks[1..]);
      assert b.content + TextOfBlocks(blocks[1..]) == a.content + TextOfBlocks(blocks);
      assert b.calls + CallsOfBlocks(blocks[1..]) == a.calls + CallsOfBlocks(blocks);
    }
  }

  // ---------- other events in between ----------

  /** The events without those that the loop passes over, such as pings. */
  function Relevant(evs: seq<Event>): seq<Event>
  {
    Filter(evs, (e: Event) => e != Other)
  }

  lemma {:induction false} NoiseIsIgnored(a: Assembly, evs: seq<Event>)
    ensures Fold(Absorb, a, Relevant(evs)) == Fold(Absorb, a, evs)
    decreases |evs|
  {
    hide Absorb;
    if evs != [] {
      var rest := Relevant(evs[1..]);
      OtherAndStop(a);
      NoiseIsIgnored(Absorb(a, evs[0]), evs[1..]);
      if evs[0] != Other {
        assert ([evs[0]] + rest)[1..] == rest;
      }
    }
  }

  /** A message of blocks comes through whole, whatever other events come in between: its text, its calls in order with
      all their fragments, its counts. */
  lemma MessageComesThrough(evs: seq<Event>, input: int, blocks: seq<Block>, output: int, stopReason: string)
    requires Relevant(evs) == Relevant(Message(input, blocks, output, stopReason))
    ensures Answer(evs).0 == Response(TextOfBlocks(blocks), CallsOfBlocks(blocks), UsageOf(input, output))
  {
    hide TextOfBlocks, CallsOfBlocks, AllEvents, Relevant;
    NoiseIsIgnored(START, evs);
    NoiseIsIgnored(START, Message(input, blocks, output, stopReason));
    var a := START.(input := input);
    FoldFirst(START, MessageStart(Some(input)), AllEvents(blocks) + [MessageDelta(Some(output), stopReason), Other]);
    var last := [MessageDelta(Some(output), stopReason), Other];
    assert Message(input, blocks, output, stopReason) == [MessageStart(Some(input))] + (AllEvents(blocks) + last);
    FoldAppend(Absorb, a, AllEvents(blocks), last);
    BlocksGather(a, blocks);
    var b := Fold(Absorb, a, AllEvents(blocks));
    FoldFirst(b, MessageDelta(Some(output), stopReason), [Other]);
    FoldFirst(Absorb(b, MessageDelta(Some(output), stopReason)), Other, []);
    assert last == [MessageDelta(Some(output), stopReason)] + [Other] && [Other] + [] == [Other];
    assert "" + TextOfBlocks(blocks) == TextOfBlocks(blocks) && [] + CallsOfBlocks(blocks) == CallsOfBlocks(blocks);
  }

  /** In such streams the arguments of the n-th tool block are also what listeners saw for index n. */
  lemma BlocksAreEmitted(evs: seq<Event>, blocks: seq<Block>, n: nat)
    requires Relevant(evs) == Relevant(AllEvents(blocks)) && n < |CallsOfBlocks(blocks)|
    ensures EmittedArguments(Assembled(evs).chunks, n) == CallsOfBlocks(blocks)[n].arguments
  {
    hide Absorb, AllEvents, CallsOfBlocks, EmittedArguments, Relevant;
    NoiseIsIgnored(START, evs);
    NoiseIsIgnored(START, AllEvents(blocks));
    NothingAssembled();
    BlocksGather(START, blocks);
    assert [] + CallsOfBlocks(blocks) == CallsOfBlocks(blocks);
  }

  /** Any events printed as `data:` lines, cut into reads anywhere, give the answer and the chunks of the events. */
  lemma StreamedEventsComeThrough(show: Event -> string, parse: string -> Option<Event>, received: seq<string>,
                                  evs: seq<Event>)
    requires Codec(show, parse) && Concat(received) == Printed(show, evs)
    ensures Answer(Events(parse, ClosedLines(Concat(received)))) == Answer(evs)
  {
    PrintedReadsBack(show, parse, evs);
  }

  // ---------- counts and the reason to stop ----------

  const INPUT: Event -> Option<int> := (e: Event) => if e.MessageStart? then e.inputTokens else None
  const OUTPUT: Event -> Option<int> := (e: Event) => if e.MessageDelta? then e.outputTokens else None

  const REASON: Event -> Option<string> :=
    (e: Event) =>
      if !e.MessageDelta? || e.stopReason == "" then None
      else Some(if e.stopReason == "tool_use" then "tool_calls" else e.stopReason)

  lemma {:induction false} LastAreAssembled(evs: seq<Event>)
    ensures var a := Assembled(evs);
            IsLast(evs, INPUT, 0, a.input) && IsLast(evs, OUTPUT, 0, a.output) && IsLast(evs, REASON, "stop", a.reason)
    decreases |evs|
  {
    hide Assembled, IsLast;
    if evs == [] {
      NothingAssembled();
      NothingIsLast();
    } else {
      var before, e := evs[..|evs| - 1], evs[|evs| - 1];
      assert evs == before + [e];
      LastAreAssembled(before);
      AssembledOneMore(before, e);
      var a := Assembled(before);
      LastOneMore(before, e, INPUT, 0, a.input);
      LastOneMore(before, e, OUTPUT, 0, a.output);
      LastOneMore(before, e, REASON, "stop", a.reason);
    }
  }

  lemma NothingIsLast()
    ensures IsLast([], INPUT, 0, 0) && IsLast([], OUTPUT, 0, 0) && IsLast([], REASON, "stop", "stop")
  {
  }

  /** For every stream: the answer counts the tokens last reported, and the last chunk closes the stream with these
      counts and the last reason to stop. */
  lemma CountsAreTheLast(evs: seq<Event>)
    ensures var (response, chunks) := Answer(evs);
            && IsLast(evs, INPUT, 0, response.usage.input) && IsLast(evs, OUTPUT, 0, response.usage.output)
            && response.usage.total == response.usage.input + response.usage.output
            && |chunks| > 0 && chunks[|chunks| - 1].Closing?
            && chunks[|chunks| - 1].usage == response.usage && IsLast(evs, REASON, "stop", chunks[|chunks| - 1].reason)
            && response.content == EmittedText(chunks[..|chunks| - 1])
  {
    hide Assembled, IsLast, EmittedText;
    LastAreAssembled(evs);
    TextIsEmitted(evs);
    var a := Assembled(evs);
    assert Answer(evs).1[..|Answer(evs).1| - 1] == a.chunks;
  }
}
