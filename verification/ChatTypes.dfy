/** The answer types that all model providers share. */
module ChatTypes {
  import opened Collections

  datatype Call = Call(id: string, name: string, arguments: string)

  datatype Usage = Usage(input: int, output: int, total: int)

  /** What a provider passes to `onChunk`. */
  datatype Chunk =
    | Text(content: string)
    | CallDelta(index: nat, id: Option<string>, name: Option<string>, arguments: Option<string>)
    | Closing(usage: Usage, reason: string)

  datatype Response = Response(content: string, calls: seq<Call>, usage: Usage)

  function UsageOf(input: int, output: int): Usage
  {
    Usage(input, output, input + output)
  }

  /** The text that one chunk adds to the answer. */
  function TextOf(c: Chunk): string
  {
    if c.Text? then c.content else ""
  }

  /** What one chunk adds to the arguments of the call at `index`. */
  function ArgumentsOf(c: Chunk, index: nat): string
  {
    if c.CallDelta? && c.index == index && c.arguments.Some? then c.arguments.value else ""
  }

  /** The text a listener has collected. */
  function EmittedText(chunks: seq<Chunk>): string
  {
    Concat(Map(chunks, TextOf))
  }

  /** The arguments a listener has collected for the call at `index`. */
  function EmittedArguments(chunks: seq<Chunk>, index: nat): string
  {
    Concat(Map(chunks, (c: Chunk) => ArgumentsOf(c, index)))
  }

  lemma EmittedOneMore(chunks: seq<Chunk>, c: Chunk, index: nat)
    ensures EmittedText(chunks + [c]) == EmittedText(chunks) + TextOf(c)
    ensures EmittedArguments(chunks + [c], index) == EmittedArguments(chunks, index) + ArgumentsOf(c, index)
  {
    var f := (x: Chunk) => ArgumentsOf(x, index);
    assert Map(chunks + [c], TextOf) == Map(chunks, TextOf) + [TextOf(c)];
    assert Map(chunks + [c], f) == Map(chunks, f) + [f(c)];
    ConcatOne(Map(chunks, TextOf), TextOf(c));
    ConcatOne(Map(chunks, f), f(c));
  }

  /** The call fragments among the emitted chunks. */
  function CallChunks(chunks: seq<Chunk>): seq<Chunk>
  {
    Filter(chunks, (c: Chunk) => c.CallDelta?)
  }

  lemma CallChunksOneMore(chunks: seq<Chunk>, c: Chunk)
    ensures CallChunks(chunks + [c]) == CallChunks(chunks) + (if c.CallDelta? then [c] else [])
    ensures EmittedText(chunks + [c]) == EmittedText(chunks) + TextOf(c)
  {
    var p := (c: Chunk) => c.CallDelta?;
    FilterAppend(chunks, [c], p);
    FilterCons(c, [], p);
    assert [c] + [] == [c];
    assert (if p(c) then [c] else []) + [] == (if p(c) then [c] else []);
    EmittedOneMore(chunks, c, 0);
  }
}
