/** The OpenAI stream: tool calls assembled per index from interleaved fragments. */
module OpenAiStream {
  import opened Collections
  import opened ChatTypes

  /** One element of `delta.tool_calls`; missing texts are empty. */
  datatype Fragment = Fragment(index: nat, id: string, name: string, arguments: string)

  datatype Counts = Counts(prompt: Option<int>, completion: Option<int>)

  /** A parsed chunk of the stream. */
  datatype Delta = Delta(content: string, fragments: seq<Fragment>, finishReason: string, usage: Option<Counts>)

  /** `toolCalls`, an array that may have holes. */
  type Slots = seq<Option<Call>>

  // ---------- the answer, stated without the loop ----------

  function AllFragments(deltas: seq<Delta>): seq<Fragment>
  {
    if deltas == [] then [] else deltas[0].fragments + AllFragments(deltas[1..])
  }

  /** The fragments of one index. */
  function At(fs: seq<Fragment>, i: nat): seq<Fragment>
  {
    Filter(fs, (f: Fragment) => f.index == i)
  }

  function Names(fs: seq<Fragment>): string
  {
    Concat(Map(fs, (f: Fragment) => f.name))
  }

  function Arguments(fs: seq<Fragment>): string
  {
    Concat(Map(fs, (f: Fragment) => f.arguments))
  }

  /** The last id that is not empty. */
  function LastId(fs: seq<Fragment>): string
  {
    if fs == [] then ""
    else if fs[|fs| - 1].id != "" then fs[|fs| - 1].id
    else LastId(fs[..|fs| - 1])
  }

  /** The call that the fragments of one index make up. */
  function CallOf(fs: seq<Fragment>): Option<Call>
  {
    if fs == [] then None else Some(Call(LastId(fs), Names(fs), Arguments(fs)))
  }

  /** Each slot holds the call of the fragments of its index, and no fragment is outside. */
  ghost predicate Holds(slots: Slots, fs: seq<Fragment>)
  {
    && (forall i :: 0 <= i < |slots| ==> slots[i] == CallOf(At(fs, i)))
    && (forall k :: 0 <= k < |fs| ==> fs[k].index < |slots|)
  }

  /** `filter(Boolean)` */
  function Present(slots: Slots): seq<Call>
  {
    if slots == [] then []
    else if slots[0].Some? then [slots[0].value] + Present(slots[1..])
    else Present(slots[1..])
  }

  function Contents(deltas: seq<Delta>): string
  {
    Concat(Map(deltas, (d: Delta) => d.content))
  }

  // ---------- one fragment ----------

  lemma AtOneMore(fs: seq<Fragment>, f: Fragment, i: nat)
    ensures At(fs + [f], i) == if f.index == i then At(fs, i) + [f] else At(fs, i)
  {
    var p := (x: Fragment) => x.index == i;
    FilterAppend(fs, [f], p);
    assert [f][1..] == [];
    assert At(fs, i) + [] == At(fs, i);
  }

  lemma CallOneMore(fs: seq<Fragment>, f: Fragment)
    ensures CallOf(fs + [f]) ==
            Some(Call(if f.id != "" then f.id else LastId(fs), Names(fs) + f.name, Arguments(fs) + f.arguments))
  {
    assert (fs + [f])[..|fs|] == fs;
    assert Map(fs + [f], (x: Fragment) => x.name) == Map(fs, (x: Fragment) => x.name) + [f.name];
    assert Map(fs + [f], (x: Fragment) => x.arguments) == Map(fs, (x: Fragment) => x.arguments) + [f.arguments];
    ConcatOne(Map(fs, (x: Fragment) => x.name), f.name);
    ConcatOne(Map(fs, (x: Fragment) => x.arguments), f.arguments);
  }

  /** Assigning beyond the end of an array leaves holes. */
  function Extended(slots: Slots, length: nat): Slots
  {
    if |slots| >= length then slots else slots + seq(length - |slots|, i => None)
  }

  /** `slots` with the fragment added to the call of its index. */
  function WithFragment(slots: Slots, f: Fragment): Slots
  {
    var wide := Extended(slots, f.index + 1);
    var call := if wide[f.index].Some? then wide[f.index].value else Call(f.id, "", "");
    wide[f.index := Some(Call(if f.id != "" then f.id else call.id, call.name + f.name, call.arguments + f.arguments))]
  }

  lemma FragmentKeepsHolds(slots: Slots, fs: seq<Fragment>, f: Fragment)
    requires Holds(slots, fs)
    ensures Holds(WithFragment(slots, f), fs + [f])
  {
    hide CallOf, At;
    var wide := Extended(slots, f.index + 1);
    var after := WithFragment(slots, f);
    forall i | 0 <= i < |after|
      ensures after[i] == CallOf(At(fs + [f], i))
    {
      AtOneMore(fs, f, i);
      if i >= |slots| {
        NothingBeyond(fs, |slots|, i);
      }
      if i == f.index {
        CallOneMore(At(fs, i), f);
        CallParts(At(fs, i));
      }
    }
  }

  lemma CallParts(fs: seq<Fragment>)
    ensures CallOf(fs) == if fs == [] then None else Some(Call(LastId(fs), Names(fs), Arguments(fs)))
    ensures fs == [] ==> LastId(fs) == "" && Names(fs) == "" && Arguments(fs) == ""
  {
  }

  lemma {:induction false} NothingBeyond(fs: seq<Fragment>, length: nat, i: nat)
    requires length <= i && forall k :: 0 <= k < |fs| ==> fs[k].index < length
    ensures At(fs, i) == [] && CallOf(At(fs, i)) == None
  {
    if fs != [] {
      NothingBeyond(fs[1..], length, i);
    }
  }

  function Optional(s: string): Option<string>
  {
    if s == "" then None else Some(s)
  }

  /** The chunk that shows a fragment. */
  function ChunkOf(f: Fragment): Chunk
  {
    CallDelta(f.index, Optional(f.id), Optional(f.name), Optional(f.arguments))
  }

  /** Listeners have seen the content, and each fragment once, in order, with its index, id, name and arguments. */
  ghost predicate Shown(chunks: seq<Chunk>, fs: seq<Fragment>, content: string)
  {
    && EmittedText(chunks) == content && |CallChunks(chunks)| == |fs|
    && forall k :: 0 <= k < |fs| ==> Shows(CallChunks(chunks)[k], fs[k])
  }

  /** The chunk has the fragment's index and, as far as they are there, its id, name and arguments. */
  ghost predicate Shows(c: Chunk, f: Fragment)
  {
    && c.CallDelta? && c.index == f.index
    && (if f.id == "" then c.id == None else c.id == Some(f.id))
    && (if f.name == "" then c.name == None else c.name == Some(f.name))
    && (if f.arguments == "" then c.arguments == None else c.arguments == Some(f.arguments))
  }

  lemma ShowText(chunks: seq<Chunk>, fs: seq<Fragment>, content: string, text: string)
    requires Shown(chunks, fs, content)
    ensures Shown(chunks + [Text(text)], fs, content + text)
  {
    hide EmittedText, CallChunks, Map;
    CallChunksOneMore(chunks, Text(text));
    assert CallChunks(chunks) + [] == CallChunks(chunks);
  }

  lemma ShowFragment(chunks: seq<Chunk>, fs: seq<Fragment>, content: string, f: Fragment)
    requires Shown(chunks, fs, content)
    ensures Shown(chunks + [ChunkOf(f)], fs + [f], content)
  {
    hide EmittedText, CallChunks;
    CallChunksOneMore(chunks, ChunkOf(f));
    assert content + "" == content;
  }

  // ---------- the loop ----------

  lemma {:induction false} FragmentsOneMore(deltas: seq<Delta>, k: nat)
    requires k < |deltas|
    ensures AllFragments(deltas[..k + 1]) == AllFragments(deltas[..k]) + deltas[k].fragments
    decreases k
  {
    if k == 0 {
      assert deltas[..1][1..] == [] && deltas[..0] == [];
    } else {
      assert deltas[..k + 1][1..] == deltas[1..][..k] && deltas[..k][1..] == deltas[1..][..k - 1];
      FragmentsOneMore(deltas[1..], k - 1);
    }
  }

  lemma ContentsOneMore(deltas: seq<Delta>, k: nat)
    requires k < |deltas|
    ensures Contents(deltas[..k + 1]) == Contents(deltas[..k]) + deltas[k].content
  {
    assert deltas[..k + 1] == deltas[..k] + [deltas[k]];
    assert Map(deltas[..k + 1], (d: Delta) => d.content)
           == Map(deltas[..k], (d: Delta) => d.content) + [deltas[k].content];
    ConcatOne(Map(deltas[..k], (d: Delta) => d.content), deltas[k].content);
  }

  /** The last count that was reported, as `value ?? current` keeps it. */
  function LastCount(deltas: seq<Delta>, count: Counts -> Option<int>): int
  {
    if deltas == [] then 0
    else
      var d := deltas[|deltas| - 1];
      if d.usage.Some? && count(d.usage.value).Some? then count(d.usage.value).value
      else LastCount(deltas[..|deltas| - 1], count)
  }

  function LastReason(deltas: seq<Delta>): string
  {
    if deltas == [] then "stop"
    else if deltas[|deltas| - 1].finishReason != "" then deltas[|deltas| - 1].finishReason
    else LastReason(deltas[..|deltas| - 1])
  }

  lemma CountsOneMore(deltas: seq<Delta>, k: nat)
    requires k < |deltas|
    ensures forall count :: LastCount(deltas[..k + 1], count) ==
              if deltas[k].usage.Some? && count(deltas[k].usage.value).Some? then count(deltas[k].usage.value).value
              else LastCount(deltas[..k], count)
    ensures LastReason(deltas[..k + 1]) ==
            if deltas[k].finishReason != "" then deltas[k].finishReason else LastReason(deltas[..k])
  {
    assert deltas[..k + 1][..k] == deltas[..k];
  }

  /** However the fragments of the calls are interleaved: the call at an index has the id last given for the
      index and the concatenated names and arguments of its fragments, and listeners saw every fragment. */
  method ChatStream(deltas: seq<Delta>) returns (response: Response, chunks: seq<Chunk>, ghost slots: Slots)
    ensures Holds(slots, AllFragments(deltas)) && response.calls == Present(slots)
    ensures response.content == Contents(deltas)
    ensures response.usage == UsageOf(LastCount(deltas, (c: Counts) => c.prompt),
                                      LastCount(deltas, (c: Counts) => c.completion))
    ensures response.usage.total == response.usage.input + response.usage.output
    ensures |chunks| > 0 && chunks[|chunks| - 1] == Closing(response.usage, LastReason(deltas))
    ensures Shown(chunks[..|chunks| - 1], AllFragments(deltas), Contents(deltas))
  {
    hide Holds, Shown, AllFragments, LastCount, LastReason, Contents;
    var prompt := (c: Counts) => c.prompt;
    var completion := (c: Counts) => c.completion;
    var fullContent, finishReason := "", "stop";
    var toolCalls: Slots := [];
    var inputTokens, outputTokens := 0, 0;
    chunks := [];
    NoDeltas();
    assert deltas[..0] == [];
    for k := 0 to |deltas|
      invariant fullContent == Contents(deltas[..k]) && finishReason == LastReason(deltas[..k])
      invariant inputTokens == LastCount(deltas[..k], prompt) && outputTokens == LastCount(deltas[..k], completion)
      invariant Holds(toolCalls, AllFragments(deltas[..k]))
      invariant Shown(chunks, AllFragments(deltas[..k]), fullContent)
    {
      var delta := deltas[k];
      ghost var before := AllFragments(deltas[..k]);
      FragmentsOneMore(deltas, k);
      ContentsOneMore(deltas, k);
      CountsOneMore(deltas, k);
      if delta.content != "" {
        ShowText(chunks, before, fullContent, delta.content);
        fullContent := fullContent + delta.content;
        chunks := chunks + [Text(delta.content)];
      }
      assert fullContent == Contents(deltas[..k + 1]);
      assert before + delta.fragments[..0] == before;
      for j := 0 to |delta.fragments|
        invariant Holds(toolCalls, before + delta.fragments[..j])
        invariant Shown(chunks, before + delta.fragments[..j], fullContent)
      {
        var tc := delta.fragments[j];
        FragmentKeepsHolds(toolCalls, before + delta.fragments[..j], tc);
        ShowFragment(chunks, before + delta.fragments[..j], fullContent, tc);
        assert before + delta.fragments[..j] + [tc] == before + delta.fragments[..j + 1];
        toolCalls := WithFragment(toolCalls, tc);
        chunks := chunks + [ChunkOf(tc)];
      }
      assert delta.fragments[..|delta.fragments|] == delta.fragments;
      if delta.finishReason != "" {
        finishReason := delta.finishReason;
      }
      if delta.usage.Some? {
        inputTokens := if delta.usage.value.prompt.Some? then delta.usage.value.prompt.value else inputTokens;
        outputTokens := if delta.usage.value.completion.Some? then delta.usage.value.completion.value else outputTokens;
      }
    }
    assert deltas[..|deltas|] == deltas;
    slots := toolCalls;
    ghost var emitted := chunks;
    chunks := chunks + [Closing(UsageOf(inputTokens, outputTokens), finishReason)];
    assert chunks[..|chunks| - 1] == emitted;
    response := Response(fullContent, Present(toolCalls), UsageOf(inputTokens, outputTokens));
  }

  lemma NoDeltas()
    ensures Contents([]) == "" && LastReason([]) == "stop" && AllFragments([]) == []
    ensures forall count :: LastCount([], count) == 0
    ensures Holds([], []) && Shown([], [], "")
  {
  }

  // ---------- the list of calls ----------

  /** The result lists exactly the touched indices, in increasing order, each once. */
  lemma {:induction false} CallsAreTouchedIndices(slots: Slots, fs: seq<Fragment>) returns (indices: seq<nat>)
    requires Holds(slots, fs)
    ensures |indices| == |Present(slots)|
    ensures forall k :: 0 <= k < |indices| ==>
              indices[k] < |slots| && Some(Present(slots)[k]) == CallOf(At(fs, indices[k]))
    ensures forall j, k :: 0 <= j < k < |indices| ==> indices[j] < indices[k]
    ensures forall k :: 0 <= k < |fs| ==> fs[k].index in indices
    ensures forall i :: i in indices ==> exists k :: 0 <= k < |fs| && fs[k].index == i
  {
    hide At, CallOf;
    indices := Touched(slots, 0);
    TouchedLists(slots, 0);
    forall k | 0 <= k < |fs|
      ensures fs[k].index in indices
    {
      TouchedHasFragment(fs, fs[k]);
      TouchedCovers(slots, 0, fs[k].index);
    }
    forall i | i in indices
      ensures exists k :: 0 <= k < |fs| && fs[k].index == i
    {
      FragmentOfTouched(fs, i);
    }
  }

  /** The positions, from `base` on, of the slots that hold a call. */
  function Touched(slots: Slots, base: nat): seq<nat>
  {
    if slots == [] then []
    else if slots[0].Some? then [base] + Touched(slots[1..], base + 1)
    else Touched(slots[1..], base + 1)
  }

  lemma {:induction false} TouchedLists(slots: Slots, base: nat)
    ensures var t := Touched(slots, base);
            && |t| == |Present(slots)|
            && (forall k :: 0 <= k < |t| ==>
                base <= t[k] < base + |slots| && slots[t[k] - base] == Some(Present(slots)[k]))
            && (forall j, k :: 0 <= j < k < |t| ==> t[j] < t[k])
  {
    if slots != [] {
      TouchedLists(slots[1..], base + 1);
      var rest := Touched(slots[1..], base + 1);
      forall k | 0 <= k < |rest|
        ensures base + 1 <= rest[k] < base + |slots| && slots[rest[k] - base] == Some(Present(slots[1..])[k])
      {
        assert slots[1..][rest[k] - base - 1] == slots[rest[k] - base];
      }
    }
  }

  lemma {:induction false} TouchedCovers(slots: Slots, base: nat, i: nat)
    requires i < |slots| && slots[i].Some?
    ensures base + i in Touched(slots, base)
  {
    if i > 0 {
      assert slots[1..][i - 1] == slots[i];
      TouchedCovers(slots[1..], base + 1, i - 1);
    }
  }

  lemma TouchedHasFragment(fs: seq<Fragment>, f: Fragment)
    requires f in fs
    ensures CallOf(At(fs, f.index)).Some?
  {
    FilterMember(fs, (x: Fragment) => x.index == f.index, f);
  }

  lemma FragmentOfTouched(fs: seq<Fragment>, i: nat)
    requires CallOf(At(fs, i)).Some?
    ensures exists k :: 0 <= k < |fs| && fs[k].index == i
  {
    var f := At(fs, i)[0];
    FilterMember(fs, (x: Fragment) => x.index == i, f);
  }
}
