/** Merging pieces into chunks with overlap, and the whole chunker. */
module TextChunker {
  import opened Collections
  import opened EventLines
  import opened TextCleaning
  import opened TextSplitting

  /** The tokenizer: how many tokens a text has, and the text of its last tokens. */
  datatype Tokenizer = Tokenizer(count: string -> nat, suffix: (string, nat) -> string)
  {
    /** `tailTokens` */
    function Tail(text: string, max: nat): string
    {
      if count(text) <= max then text else suffix(text, max)
    }
  }

  // ---------- hard split ----------

  /** Each slice has at most `4 * chunkSize` characters, there are as many as needed, and they are the text. */
  method HardSplit(text: string, chunkSize: nat) returns (out: seq<string>)
    requires chunkSize > 0
    ensures out == Slices(text, 4 * chunkSize)
  {
    hide Remaining, Slices;
    out := [];
    var approx := chunkSize * 4;
    AllRemains(text, approx);
    var i := 0;
    while i < |text|
      invariant 0 <= i
      invariant Slices(text, approx) == out + Remaining(text, i, approx)
    {
      NextSlice(text, i, approx);
      out := out + [SliceAt(text, i, approx)];
      i := i + approx;
    }
    NothingRemains(text, i, approx);
  }

  /** `text.slice(i, i + n)` */
  function SliceAt(text: string, i: nat, n: nat): string
    requires i <= |text|
  {
    text[i..if i + n <= |text| then i + n else |text|]
  }

  function Remaining(text: string, i: nat, n: nat): seq<string>
    requires n > 0
  {
    if i < |text| then Slices(text[i..], n) else []
  }

  lemma AllRemains(text: string, n: nat)
    requires n > 0
    ensures [] + Remaining(text, 0, n) == Slices(text, n)
  {
    assert text[0..] == text;
  }

  lemma NothingRemains(text: string, i: nat, n: nat)
    requires n > 0 && i >= |text|
    ensures forall out: seq<string> :: out + Remaining(text, i, n) == out
  {
  }

  lemma NextSlice(text: string, i: nat, n: nat)
    requires n > 0 && i < |text|
    ensures Remaining(text, i, n) == [SliceAt(text, i, n)] + Remaining(text, i + n, n)
  {
    if i + n < |text| {
      assert text[i..][..n] == text[i..i + n] && text[i..][n..] == text[i + n..];
    } else {
      assert text[i..|text|] == text[i..];
    }
  }

  function Slices(text: string, n: nat): seq<string>
    requires n > 0
    decreases |text|
  {
    if text == "" then []
    else if |text| <= n then [text]
    else [text[..n]] + Slices(text[n..], n)
  }

  /** The slices are the text; each has from 1 to `n` characters, and there are ceil(|text| / n) of them. */
  lemma {:induction false} SlicesCoverText(text: string, n: nat)
    requires n > 0
    ensures Concat(Slices(text, n)) == text
    ensures forall k :: 0 <= k < |Slices(text, n)| ==> 0 < |Slices(text, n)[k]| <= n
    ensures |text| <= n * |Slices(text, n)| < |text| + n
    decreases |text|
  {
    if text == "" {
    } else if |text| <= n {
      assert Concat([text]) == text + Concat([]);
      assert text + "" == text;
    } else {
      var rest := Slices(text[n..], n);
      SlicesCoverText(text[n..], n);
      assert text == text[..n] + text[n..];
      assert ([text[..n]] + rest)[1..] == rest;
      assert n * (1 + |rest|) == n + n * |rest|;
    }
  }

  // ---------- merging ----------

  /** A chunk as what it carries over from the chunk before and what it adds. */
  datatype Chunk = Chunk(carried: string, own: string)
  {
    function Text(): string { carried + own }
  }

  /** The chunks pushed so far and the buffer with its running token count. */
  datatype Merging = Merging(chunks: seq<Chunk>, buffer: Chunk, tokens: nat)

  const EMPTY := Chunk("", "")

  function AsChunks(texts: seq<string>): seq<Chunk>
  {
    Map(texts, (t: string) => Chunk("", t))
  }

  function MergePiece(tok: Tokenizer, m: Merging, piece: string, chunkSize: nat, overlap: nat): Merging
    requires chunkSize > 0
  {
    var n := tok.count(piece);
    if n > chunkSize then
      Merging(m.chunks + (if m.buffer.Text() == "" then [] else [m.buffer]) + AsChunks(Slices(piece, 4 * chunkSize)),
              if m.buffer.Text() == "" then m.buffer else EMPTY, if m.buffer.Text() == "" then m.tokens else 0)
    else if m.tokens + n > chunkSize then
      var buffer := Chunk(tok.Tail(m.buffer.Text(), overlap), piece);
      Merging(m.chunks + [m.buffer], buffer, tok.count(buffer.Text()))
    else
      m.(buffer := m.buffer.(own := m.buffer.own + piece), tokens := m.tokens + n)
  }

  function MergeFirst(tok: Tokenizer, pieces: seq<string>, chunkSize: nat, overlap: nat, k: nat): Merging
    requires chunkSize > 0 && k <= |pieces|
  {
    if k == 0 then Merging([], EMPTY, 0)
    else MergePiece(tok, MergeFirst(tok, pieces, chunkSize, overlap, k - 1), pieces[k - 1], chunkSize, overlap)
  }

  /** The chunks of the pieces, each with the prefix it carries. */
  function Merged(tok: Tokenizer, pieces: seq<string>, chunkSize: nat, overlap: nat): seq<Chunk>
    requires chunkSize > 0
  {
    var m := MergeFirst(tok, pieces, chunkSize, overlap, |pieces|);
    m.chunks + (if Blank(m.buffer.Text()) then [] else [m.buffer])
  }

  function Texts(chunks: seq<Chunk>): seq<string>
  {
    Map(chunks, (c: Chunk) => c.Text())
  }

  function Owned(chunks: seq<Chunk>): string
  {
    Concat(Map(chunks, (c: Chunk) => c.own))
  }

  lemma TextsAppend(a: seq<Chunk>, b: seq<Chunk>)
    ensures Texts(a + b) == Texts(a) + Texts(b)
    ensures Owned(a + b) == Owned(a) + Owned(b)
  {
    assert Map(a + b, (c: Chunk) => c.own) == Map(a, (c: Chunk) => c.own) + Map(b, (c: Chunk) => c.own);
    ConcatAppend(Map(a, (c: Chunk) => c.own), Map(b, (c: Chunk) => c.own));
  }

  lemma TextsOfOne(c: Chunk)
    ensures Texts([c]) == [c.Text()] && Owned([c]) == c.own && Texts([]) == [] && Owned([]) == ""
  {
    assert Map([c], (c: Chunk) => c.own) == [c.own];
    assert Concat([c.own]) == c.own + Concat([]);
    assert c.own + "" == c.own;
  }

  lemma TextsOfSlices(texts: seq<string>)
    ensures Texts(AsChunks(texts)) == texts && Owned(AsChunks(texts)) == Concat(texts)
  {
    var chunks := AsChunks(texts);
    forall i | 0 <= i < |texts|
      ensures Texts(chunks)[i] == texts[i]
    {
      assert "" + texts[i] == texts[i];
    }
    assert Map(chunks, (c: Chunk) => c.own) == texts;
  }

  /** The loop, on plain texts. */
  method MergePieces(tok: Tokenizer, pieces: seq<string>, chunkSize: nat, overlap: nat) returns (chunks: seq<string>)
    requires chunkSize > 0
    ensures chunks == Texts(Merged(tok, pieces, chunkSize, overlap))
  {
    hide Slices, Texts, Owned, AsChunks;
    chunks := [];
    var buffer, bufferTokens := "", 0;
    TextsOfOne(EMPTY);
    for k := 0 to |pieces|
      invariant chunks == Texts(MergeFirst(tok, pieces, chunkSize, overlap, k).chunks)
      invariant buffer == MergeFirst(tok, pieces, chunkSize, overlap, k).buffer.Text()
      invariant bufferTokens == MergeFirst(tok, pieces, chunkSize, overlap, k).tokens
    {
      var piece := pieces[k];
      var pieceTokens := tok.count(piece);
      ghost var m := MergeFirst(tok, pieces, chunkSize, overlap, k);
      ghost var slices := AsChunks(Slices(piece, 4 * chunkSize));
      assert MergeFirst(tok, pieces, chunkSize, overlap, k + 1) == MergePiece(tok, m, piece, chunkSize, overlap);
      TextsAppend(m.chunks, [m.buffer]);
      TextsAppend(m.chunks, []);
      TextsOfOne(m.buffer);
      if pieceTokens > chunkSize {
        TextsAppend(m.chunks + (if buffer == "" then [] else [m.buffer]), slices);
        TextsOfSlices(Slices(piece, 4 * chunkSize));
        if buffer != "" {
          chunks := chunks + [buffer];
          buffer, bufferTokens := "", 0;
        }
        var slicesOut := HardSplit(piece, chunkSize);
        chunks := chunks + slicesOut;
        continue;
      }
      if bufferTokens + pieceTokens > chunkSize {
        chunks := chunks + [buffer];
        var overlapText := tok.Tail(buffer, overlap);
        buffer := if overlapText != "" then overlapText + piece else piece;
        assert "" + piece == piece;
        bufferTokens := tok.count(buffer);
      } else {
        assert buffer + piece == m.buffer.carried + (m.buffer.own + piece);
        buffer := if buffer != "" then buffer + piece else piece;
        bufferTokens := bufferTokens + pieceTokens;
      }
    }
    ghost var m := MergeFirst(tok, pieces, chunkSize, overlap, |pieces|);
    TextsAppend(m.chunks, [m.buffer]);
    TextsAppend(m.chunks, []);
    TextsOfOne(m.buffer);
    if !Blank(buffer) {
      chunks := chunks + [buffer];
    }
  }

  // ---------- the chunks partition the pieces ----------

  /** `c` carries nothing, or the tail of the last of `before`. */
  ghost predicate Carries(tok: Tokenizer, before: seq<Chunk>, c: Chunk, overlap: nat)
  {
    c.carried == "" || (before != [] && c.carried == tok.Tail(Last(before).Text(), overlap))
  }

  ghost predicate CarriesTails(tok: Tokenizer, chunks: seq<Chunk>, overlap: nat)
  {
    forall k :: 0 <= k < |chunks| ==> Carries(tok, chunks[..k], chunks[k], overlap)
  }

  lemma CarriesOneMore(tok: Tokenizer, chunks: seq<Chunk>, c: Chunk, overlap: nat)
    requires CarriesTails(tok, chunks, overlap) && Carries(tok, chunks, c, overlap)
    ensures CarriesTails(tok, chunks + [c], overlap)
  {
    hide Carries;
    var all := chunks + [c];
    forall k | 0 <= k < |all|
      ensures Carries(tok, all[..k], all[k], overlap)
    {
      assert all[..k] == chunks[..k];
      assert chunks[..|chunks|] == chunks;
    }
  }

  lemma {:induction false} CarriesSlices(tok: Tokenizer, chunks: seq<Chunk>, texts: seq<string>, overlap: nat)
    requires CarriesTails(tok, chunks, overlap)
    ensures CarriesTails(tok, chunks + AsChunks(texts), overlap)
    decreases |texts|
  {
    hide CarriesTails;
    if texts == [] {
      assert chunks + AsChunks(texts) == chunks;
    } else {
      CarriesOneMore(tok, chunks, Chunk("", texts[0]), overlap);
      CarriesSlices(tok, chunks + [Chunk("", texts[0])], texts[1..], overlap);
      assert chunks + AsChunks(texts) == chunks + [Chunk("", texts[0])] + AsChunks(texts[1..]);
    }
  }

  /** Consecutive pieces that end up in one chunk, or an oversized piece that is cut into slices. */
  datatype Group = Whole(pieces: seq<string>, chunk: Chunk) | Cut(piece: string)

  function GroupPieces(g: Group): seq<string>
  {
    if g.Whole? then g.pieces else [g.piece]
  }

  function GroupChunks(g: Group, chunkSize: nat): seq<Chunk>
    requires chunkSize > 0
  {
    if g.Whole? then [g.chunk] else AsChunks(Slices(g.piece, 4 * chunkSize))
  }

  function AllPieces(groups: seq<Group>): seq<string>
  {
    if groups == [] then [] else AllPieces(AllButLast(groups)) + GroupPieces(Last(groups))
  }

  function AllChunks(groups: seq<Group>, chunkSize: nat): seq<Chunk>
    requires chunkSize > 0
  {
    if groups == [] then [] else AllChunks(AllButLast(groups), chunkSize) + GroupChunks(Last(groups), chunkSize)
  }

  /** A chunk of whole pieces adds just these pieces, and has at most `chunkSize + overlap` tokens when the tokenizer
      is `Measured`; only a piece of more than `chunkSize` tokens is cut. */
  ghost predicate Sound(tok: Tokenizer, g: Group, chunkSize: nat, overlap: nat)
  {
    match g
    case Whole(pieces, chunk) =>
      && pieces != [] && chunk.own == Concat(pieces)
      && (Measured(tok) ==> tok.count(chunk.Text()) <= chunkSize + overlap)
    case Cut(piece) => tok.count(piece) > chunkSize
  }

  ghost predicate AllSound(tok: Tokenizer, groups: seq<Group>, chunkSize: nat, overlap: nat)
  {
    forall g :: g in groups ==> Sound(tok, g, chunkSize, overlap)
  }

  /** Counting is subadditive, and a suffix has no more tokens than were asked for. */
  ghost predicate Measured(tok: Tokenizer)
  {
    && (forall a, b :: tok.count(a + b) <= tok.count(a) + tok.count(b))
    && tok.count("") == 0
    && (forall s, max :: tok.count(tok.Tail(s, max)) <= max)
  }

  /** With a tokenizer that is `Measured`, the running count is an upper bound for the tokens of the buffer. */
  ghost predicate Counted(tok: Tokenizer, m: Merging, chunkSize: nat, overlap: nat)
  {
    Measured(tok) ==> tok.count(m.buffer.Text()) <= m.tokens <= chunkSize + overlap
  }

  /** The pieces taken in so far are those of the finished groups and the open ones, which make up the buffer. */
  ghost predicate Grouped(tok: Tokenizer, m: Merging, taken: seq<string>, groups: seq<Group>,
                          open: seq<string>, chunkSize: nat, overlap: nat)
    requires chunkSize > 0
  {
    && m.chunks == AllChunks(groups, chunkSize) && taken == AllPieces(groups) + open
    && AllSound(tok, groups, chunkSize, overlap)
    && m.buffer.own == Concat(open) && (open == [] <==> m.buffer == EMPTY)
    && (m.buffer == EMPTY ==> m.tokens == 0)
    && (m.buffer == EMPTY || !Blank(m.buffer.Text()))
    && CarriesTails(tok, m.chunks, overlap) && Carries(tok, m.chunks, m.buffer, overlap)
    && Counted(tok, m, chunkSize, overlap)
  }

  // ---------- where groups begin and end, and what they carry ----------

  /** What a group after these carries over: after a group of whole pieces the last `overlap` tokens of its chunk, or
      all of it if it has no more; at the start and after a cut piece nothing. */
  function CarriedAfter(tok: Tokenizer, groups: seq<Group>, overlap: nat): string
  {
    if groups == [] || Last(groups).Cut? then ""
    else
      var text := Last(groups).chunk.Text();
      if tok.count(text) <= overlap then text else tok.suffix(text, overlap)
  }

  /** The running count: the first piece is counted with what is carried over, each further one by itself. */
  function Running(tok: Tokenizer, carried: string, pieces: seq<string>): nat
  {
    if pieces == [] then 0
    else if |pieces| == 1 then tok.count(carried + pieces[0])
    else Running(tok, carried, AllButLast(pieces)) + tok.count(Last(pieces))
  }

  /** No piece is oversized, and from the second one on each fits with what is there already. */
  ghost predicate Fits(tok: Tokenizer, carried: string, pieces: seq<string>, chunkSize: nat)
  {
    && (forall i :: 0 <= i < |pieces| ==> tok.count(pieces[i]) <= chunkSize)
    && (forall i :: 2 <= i <= |pieces| ==> Running(tok, carried, pieces[..i]) <= chunkSize)
  }

  /** The group follows these: it carries over what it should, takes in pieces as long as they fit, and a group of
      whole pieces right before it had no room for its first piece. */
  ghost predicate Follows(tok: Tokenizer, before: seq<Group>, g: Group, chunkSize: nat, overlap: nat)
  {
    g.Whole? ==>
      && g.pieces != [] && g.chunk.carried == CarriedAfter(tok, before, overlap)
      && Fits(tok, g.chunk.carried, g.pieces, chunkSize)
      && (before != [] && Last(before).Whole? ==>
            Running(tok, Last(before).chunk.carried, Last(before).pieces) + tok.count(g.pieces[0]) > chunkSize)
  }

  ghost predicate Linked(tok: Tokenizer, groups: seq<Group>, chunkSize: nat, overlap: nat)
  {
    forall k :: 0 <= k < |groups| ==> Follows(tok, groups[..k], groups[k], chunkSize, overlap)
  }

  lemma LinkedOneMore(tok: Tokenizer, groups: seq<Group>, g: Group, chunkSize: nat, overlap: nat)
    requires Linked(tok, groups, chunkSize, overlap) && Follows(tok, groups, g, chunkSize, overlap)
    ensures Linked(tok, groups + [g], chunkSize, overlap)
  {
    hide Follows;
    var all := groups + [g];
    forall k | 0 <= k < |all|
      ensures Follows(tok, all[..k], all[k], chunkSize, overlap)
    {
      assert all[..k] == groups[..k];
      assert groups[..|groups|] == groups;
    }
  }

  /** The finished groups are linked, and the buffer is the group that follows them. */
  ghost predicate Greedy(tok: Tokenizer, m: Merging, groups: seq<Group>, open: seq<string>, chunkSize: nat,
                         overlap: nat)
  {
    && Linked(tok, groups, chunkSize, overlap)
    && (open == [] ==> m.buffer == EMPTY && m.tokens == 0 && (groups == [] || Last(groups).Cut?))
    && (open != [] ==>
          && m.buffer.Text() != "" && m.tokens == Running(tok, m.buffer.carried, open)
          && Follows(tok, groups, Whole(open, m.buffer), chunkSize, overlap))
  }

  lemma OversizedIsGreedy(tok: Tokenizer, m: Merging, piece: string, groups: seq<Group>, open: seq<string>,
                          chunkSize: nat, overlap: nat)
    requires chunkSize > 0 && Greedy(tok, m, groups, open, chunkSize, overlap) && tok.count(piece) > chunkSize
    ensures var before := if open == [] then groups else groups + [Whole(open, m.buffer)];
            Greedy(tok, MergePiece(tok, m, piece, chunkSize, overlap), before + [Cut(piece)], [], chunkSize, overlap)
  {
    hide Follows, Linked, Slices;
    assert EMPTY.Text() == "";
    var before := if open == [] then groups else groups + [Whole(open, m.buffer)];
    if open != [] {
      LinkedOneMore(tok, groups, Whole(open, m.buffer), chunkSize, overlap);
    }
    CutFollows(tok, before, piece, chunkSize, overlap);
    LinkedOneMore(tok, before, Cut(piece), chunkSize, overlap);
  }

  lemma CutFollows(tok: Tokenizer, before: seq<Group>, piece: string, chunkSize: nat, overlap: nat)
    ensures Follows(tok, before, Cut(piece), chunkSize, overlap)
  {
  }

  lemma OverflowIsGreedy(tok: Tokenizer, m: Merging, piece: string, groups: seq<Group>, open: seq<string>,
                         chunkSize: nat, overlap: nat)
    requires chunkSize > 0 && Greedy(tok, m, groups, open, chunkSize, overlap) && !Blank(piece)
    requires tok.count(piece) <= chunkSize < m.tokens + tok.count(piece)
    ensures Greedy(tok, MergePiece(tok, m, piece, chunkSize, overlap), groups + [Whole(open, m.buffer)], [piece],
                   chunkSize, overlap)
  {
    hide Linked, Blank;
    LinkedOneMore(tok, groups, Whole(open, m.buffer), chunkSize, overlap);
    NotBlankInside(tok.Tail(m.buffer.Text(), overlap), piece);
  }

  lemma OntoIsGreedy(tok: Tokenizer, m: Merging, piece: string, groups: seq<Group>, open: seq<string>,
                     chunkSize: nat, overlap: nat)
    requires chunkSize > 0 && Greedy(tok, m, groups, open, chunkSize, overlap) && !Blank(piece)
    requires m.tokens + tok.count(piece) <= chunkSize
    ensures Greedy(tok, MergePiece(tok, m, piece, chunkSize, overlap), groups, open + [piece], chunkSize, overlap)
  {
    hide Linked, Blank;
    assert m.buffer.carried + (m.buffer.own + piece) == m.buffer.Text() + piece;
    NotBlankInside(m.buffer.Text(), piece);
    assert "" + piece == piece;
    assert AllButLast(open + [piece]) == open;
    FitsOneMore(tok, m.buffer.carried, open, piece, chunkSize);
  }

  lemma FitsOneMore(tok: Tokenizer, carried: string, open: seq<string>, piece: string, chunkSize: nat)
    requires Fits(tok, carried, open, chunkSize) && tok.count(piece) <= chunkSize
    requires open != [] ==> Running(tok, carried, open + [piece]) <= chunkSize
    ensures Fits(tok, carried, open + [piece], chunkSize)
  {
    var all := open + [piece];
    forall i | 2 <= i <= |all|
      ensures Running(tok, carried, all[..i]) <= chunkSize
    {
      assert i <= |open| ==> all[..i] == open[..i];
      assert all[..|all|] == all;
    }
  }

  ghost predicate NoneBlank(pieces: seq<string>)
  {
    forall p :: p in pieces ==> !Blank(p)
  }

  /** Text around a text that is not blank does not make it blank. */
  lemma NotBlankInside(a: string, b: string)
    requires !Blank(a) || !Blank(b)
    ensures !Blank(a + b) && a + b != ""
  {
    BlankIffNoSolid(a);
    BlankIffNoSolid(b);
    BlankIffNoSolid(a + b);
    SolidAppend(a, b);
    assert Blank("");
  }

  lemma {:induction false} BlankIffNoSolid(s: string)
    ensures Blank(s) <==> Solid(s) == ""
  {
    SolidTrim(s);
    TrimIsTrimmed(s);
    if Trim(s) != "" {
      assert Trim(s)[0] in Trim(s);
      FilterMember(Trim(s), (c: char) => !IsSpace(c), Trim(s)[0]);
    }
  }

  lemma OneMoreGroup(groups: seq<Group>, g: Group, chunkSize: nat)
    requires chunkSize > 0
    ensures AllPieces(groups + [g]) == AllPieces(groups) + GroupPieces(g)
    ensures AllChunks(groups + [g], chunkSize) == AllChunks(groups, chunkSize) + GroupChunks(g, chunkSize)
  {
    assert AllButLast(groups + [g]) == groups;
  }

  /** The buffer's running count stays an upper bound. */
  lemma PieceKeepsBound(tok: Tokenizer, m: Merging, piece: string, chunkSize: nat, overlap: nat)
    requires chunkSize > 0 && Measured(tok) && (m.buffer == EMPTY ==> m.tokens == 0)
    requires tok.count(m.buffer.Text()) <= m.tokens <= chunkSize + overlap
    ensures var t := MergePiece(tok, m, piece, chunkSize, overlap);
            tok.count(t.buffer.Text()) <= t.tokens <= chunkSize + overlap
  {
    hide Slices, Tokenizer.Tail;
    if tok.count(piece) > chunkSize {
      assert EMPTY.Text() == "";
    } else if m.tokens + tok.count(piece) <= chunkSize {
      assert m.buffer.carried + (m.buffer.own + piece) == m.buffer.Text() + piece;
    }
  }

  lemma CloseGroup(tok: Tokenizer, m: Merging, taken: seq<string>, groups: seq<Group>,
                   open: seq<string>, chunkSize: nat, overlap: nat)
    requires chunkSize > 0 && Grouped(tok, m, taken, groups, open, chunkSize, overlap) && open != []
    ensures var closed := groups + [Whole(open, m.buffer)];
            && m.chunks + [m.buffer] == AllChunks(closed, chunkSize) && taken == AllPieces(closed)
            && AllSound(tok, closed, chunkSize, overlap) && CarriesTails(tok, m.chunks + [m.buffer], overlap)
  {
    hide Blank, Tokenizer.Tail, CarriesTails, Carries, Measured, AllChunks, AllPieces;
    OneMoreGroup(groups, Whole(open, m.buffer), chunkSize);
    CarriesOneMore(tok, m.chunks, m.buffer, overlap);
  }

  lemma TakeOversized(tok: Tokenizer, m: Merging, taken: seq<string>, piece: string, groups: seq<Group>,
                      open: seq<string>, chunkSize: nat, overlap: nat)
    requires chunkSize > 0 && Grouped(tok, m, taken, groups, open, chunkSize, overlap) && tok.count(piece) > chunkSize
    ensures var before := if open == [] then groups else groups + [Whole(open, m.buffer)];
            Grouped(tok, MergePiece(tok, m, piece, chunkSize, overlap), taken + [piece], before + [Cut(piece)], [],
                    chunkSize, overlap)
  {
    hide Slices, Blank, Tokenizer.Tail, CarriesTails, AsChunks, Measured, AllChunks, AllPieces;
    var before := if open == [] then groups else groups + [Whole(open, m.buffer)];
    var chunks := if open == [] then m.chunks else m.chunks + [m.buffer];
    assert EMPTY.Text() == "" && EMPTY.own == "";
    assert m.buffer.Text() == "" <==> open == [] by { BlankEmpty(); }
    assert m.chunks + [] == m.chunks;
    assert MergePiece(tok, m, piece, chunkSize, overlap)
           == Merging(chunks + AsChunks(Slices(piece, 4 * chunkSize)), EMPTY, 0);
    if open != [] {
      CloseGroup(tok, m, taken, groups, open, chunkSize, overlap);
    }
    assert taken == AllPieces(before) && taken + [piece] + [] == taken + [piece];
    OneMoreGroup(before, Cut(piece), chunkSize);
    CarriesSlices(tok, chunks, Slices(piece, 4 * chunkSize), overlap);
    if Measured(tok) {
      PieceKeepsBound(tok, m, piece, chunkSize, overlap);
    }
  }

  lemma TakeOverflow(tok: Tokenizer, m: Merging, taken: seq<string>, piece: string, groups: seq<Group>,
                     open: seq<string>, chunkSize: nat, overlap: nat)
    requires chunkSize > 0 && Grouped(tok, m, taken, groups, open, chunkSize, overlap) && !Blank(piece)
    requires tok.count(piece) <= chunkSize < m.tokens + tok.count(piece)
    ensures Grouped(tok, MergePiece(tok, m, piece, chunkSize, overlap), taken + [piece],
                    groups + [Whole(open, m.buffer)], [piece], chunkSize, overlap)
  {
    hide Blank, Tokenizer.Tail, CarriesTails, Measured, AllChunks, AllPieces, AllSound;
    CloseGroup(tok, m, taken, groups, open, chunkSize, overlap);
    NotBlankInside(tok.Tail(m.buffer.Text(), overlap), piece);
    assert Last(m.chunks + [m.buffer]) == m.buffer;
    assert Concat([piece]) == piece + Concat([]) && piece + "" == piece;
    if Measured(tok) {
      PieceKeepsBound(tok, m, piece, chunkSize, overlap);
    }
  }

  lemma TakeOnto(tok: Tokenizer, m: Merging, taken: seq<string>, piece: string, groups: seq<Group>,
                 open: seq<string>, chunkSize: nat, overlap: nat)
    requires chunkSize > 0 && Grouped(tok, m, taken, groups, open, chunkSize, overlap) && !Blank(piece)
    requires m.tokens + tok.count(piece) <= chunkSize
    ensures Grouped(tok, MergePiece(tok, m, piece, chunkSize, overlap), taken + [piece], groups, open + [piece],
                    chunkSize, overlap)
  {
    hide Blank, Tokenizer.Tail, CarriesTails, Measured, AllChunks, AllPieces, AllSound;
    assert taken + [piece] == AllPieces(groups) + (open + [piece]);
    ConcatOne(open, piece);
    NotBlankInside(m.buffer.Text(), piece);
    assert m.buffer.carried + (m.buffer.own + piece) == m.buffer.Text() + piece;
    BlankEmpty();
    if Measured(tok) {
      PieceKeepsBound(tok, m, piece, chunkSize, overlap);
    }
  }

  lemma {:induction false} PiecesAreGrouped(tok: Tokenizer, pieces: seq<string>, chunkSize: nat, overlap: nat, k: nat)
    returns (groups: seq<Group>, open: seq<string>)
    requires chunkSize > 0 && k <= |pieces| && NoneBlank(pieces)
    ensures Grouped(tok, MergeFirst(tok, pieces, chunkSize, overlap, k), pieces[..k], groups, open, chunkSize, overlap)
    ensures Greedy(tok, MergeFirst(tok, pieces, chunkSize, overlap, k), groups, open, chunkSize, overlap)
    decreases k
  {
    hide MergePiece, Blank, Grouped, Greedy;
    if k == 0 {
      groups, open := [], [];
      NothingGrouped(tok, chunkSize, overlap);
      assert pieces[..0] == [];
    } else {
      var m, piece, taken := MergeFirst(tok, pieces, chunkSize, overlap, k - 1), pieces[k - 1], pieces[..k - 1];
      groups, open := PiecesAreGrouped(tok, pieces, chunkSize, overlap, k - 1);
      assert pieces[..k] == taken + [piece] && piece in pieces;
      if tok.count(piece) > chunkSize {
        TakeOversized(tok, m, taken, piece, groups, open, chunkSize, overlap);
        OversizedIsGreedy(tok, m, piece, groups, open, chunkSize, overlap);
        groups, open := (if open == [] then groups else groups + [Whole(open, m.buffer)]) + [Cut(piece)], [];
      } else if m.tokens + tok.count(piece) > chunkSize {
        TakeOverflow(tok, m, taken, piece, groups, open, chunkSize, overlap);
        OverflowIsGreedy(tok, m, piece, groups, open, chunkSize, overlap);
        groups, open := groups + [Whole(open, m.buffer)], [piece];
      } else {
        TakeOnto(tok, m, taken, piece, groups, open, chunkSize, overlap);
        OntoIsGreedy(tok, m, piece, groups, open, chunkSize, overlap);
        open := open + [piece];
      }
    }
  }

  lemma NothingGrouped(tok: Tokenizer, chunkSize: nat, overlap: nat)
    requires chunkSize > 0
    ensures Grouped(tok, Merging([], EMPTY, 0), [], [], [], chunkSize, overlap)
    ensures Greedy(tok, Merging([], EMPTY, 0), [], [], chunkSize, overlap)
  {
    assert EMPTY.Text() == "";
  }

  lemma BlankEmpty()
    ensures Blank("")
  {
  }

  /** The pieces fall into consecutive groups, each of which is one chunk or, for a single oversized piece, its slices.
      A group takes in pieces as long as they fit, and carries over the tail of the chunk of the group before, unless
      it comes first or after a cut piece. */
  lemma ChunksPartitionPieces(tok: Tokenizer, pieces: seq<string>, chunkSize: nat, overlap: nat)
    returns (groups: seq<Group>)
    requires chunkSize > 0 && NoneBlank(pieces)
    ensures AllPieces(groups) == pieces && AllChunks(groups, chunkSize) == Merged(tok, pieces, chunkSize, overlap)
    ensures AllSound(tok, groups, chunkSize, overlap)
    ensures Linked(tok, groups, chunkSize, overlap)
    ensures CarriesTails(tok, Merged(tok, pieces, chunkSize, overlap), overlap)
  {
    hide MergeFirst, Blank, Linked, Follows, CarriesTails, AllSound, AllPieces, AllChunks, Measured;
    var open;
    groups, open := PiecesAreGrouped(tok, pieces, chunkSize, overlap, |pieces|);
    assert pieces[..|pieces|] == pieces;
    var m := MergeFirst(tok, pieces, chunkSize, overlap, |pieces|);
    BlankEmpty();
    assert EMPTY.Text() == "";
    if open == [] {
      assert m.chunks + [] == m.chunks && AllPieces(groups) + [] == AllPieces(groups);
    } else {
      CloseGroup(tok, m, pieces, groups, open, chunkSize, overlap);
      LinkedOneMore(tok, groups, Whole(open, m.buffer), chunkSize, overlap);
      groups := groups + [Whole(open, m.buffer)];
    }
  }

  /** The groups own all the text of their pieces. */
  lemma {:induction false} GroupsOwnPieces(tok: Tokenizer, groups: seq<Group>, chunkSize: nat, overlap: nat)
    requires chunkSize > 0 && AllSound(tok, groups, chunkSize, overlap)
    ensures Owned(AllChunks(groups, chunkSize)) == Concat(AllPieces(groups))
  {
    hide Owned, Slices, Measured, AsChunks;
    if groups == [] {
      TextsOfOne(EMPTY);
    } else {
      var before, g := AllButLast(groups), Last(groups);
      GroupsOwnPieces(tok, before, chunkSize, overlap);
      TextsAppend(AllChunks(before, chunkSize), GroupChunks(g, chunkSize));
      ConcatAppend(AllPieces(before), GroupPieces(g));
      match g
      case Whole(pieces, chunk) =>
        assert Sound(tok, g, chunkSize, overlap);
        TextsOfOne(chunk);
      case Cut(piece) =>
        TextsOfSlices(Slices(piece, 4 * chunkSize));
        SlicesCoverText(piece, 4 * chunkSize);
        assert Concat([piece]) == piece + Concat([]) && piece + "" == piece;
    }
  }

  // ---------- how large chunks get ----------

  /** The chunk is a slice of an oversized piece, and carries nothing. */
  ghost predicate IsSlice(tok: Tokenizer, pieces: seq<string>, c: Chunk, chunkSize: nat)
    requires chunkSize > 0
  {
    c.carried == "" && exists p :: p in pieces && tok.count(p) > chunkSize && c.own in Slices(p, 4 * chunkSize)
  }

  lemma {:induction false} GroupedChunk(tok: Tokenizer, groups: seq<Group>, chunkSize: nat, overlap: nat, c: Chunk)
    requires chunkSize > 0 && Measured(tok) && AllSound(tok, groups, chunkSize, overlap)
             && c in AllChunks(groups, chunkSize)
    ensures tok.count(c.Text()) <= chunkSize + overlap || IsSlice(tok, AllPieces(groups), c, chunkSize)
  {
    hide Slices, Measured;
    var before, g := AllButLast(groups), Last(groups);
    assert g in groups && Sound(tok, g, chunkSize, overlap);
    if c in AllChunks(before, chunkSize) {
      GroupedChunk(tok, before, chunkSize, overlap, c);
    } else if g.Cut? {
      var i :| 0 <= i < |GroupChunks(g, chunkSize)| && GroupChunks(g, chunkSize)[i] == c;
      assert c.own == Slices(g.piece, 4 * chunkSize)[i] && g.piece in GroupPieces(g);
    }
  }

  /** Every chunk has at most `chunkSize + overlap` tokens, unless it is a slice, of at most `4 * chunkSize`
      characters, of a single piece that is too large itself. */
  lemma ChunksAreBounded(tok: Tokenizer, pieces: seq<string>, chunkSize: nat, overlap: nat, c: Chunk)
    requires chunkSize > 0 && Measured(tok) && NoneBlank(pieces) && c in Merged(tok, pieces, chunkSize, overlap)
    ensures tok.count(c.Text()) <= chunkSize + overlap
            || (IsSlice(tok, pieces, c, chunkSize) && |c.Text()| <= 4 * chunkSize)
  {
    hide Merged, AllSound, Measured, Slices, AllChunks, AllPieces;
    var groups := ChunksPartitionPieces(tok, pieces, chunkSize, overlap);
    GroupedChunk(tok, groups, chunkSize, overlap, c);
    if IsSlice(tok, pieces, c, chunkSize) {
      var p :| p in pieces && tok.count(p) > chunkSize && c.own in Slices(p, 4 * chunkSize);
      SlicesCoverText(p, 4 * chunkSize);
      assert "" + c.own == c.own;
    }
  }

  // ---------- the whole chunker ----------

  datatype ChunkError = BadChunkSize | BadOverlap

  function Trimmings(chunks: seq<string>): seq<string>
  {
    Filter(Map(chunks, (c: string) => Trim(c)), (c: string) => |c| > 0)
  }

  /** The chunks of a text that is not blank, before trimming. */
  function ChunksOf(tok: Tokenizer, text: string, chunkSize: nat, overlap: nat): seq<Chunk>
    requires chunkSize > 0
  {
    Merged(tok, Pieces(tok.count, PreClean(text), SEPARATORS), chunkSize, overlap)
  }

  function Answer(tok: Tokenizer, text: string, chunkSize: int, overlap: int): Result<seq<string>, ChunkError>
  {
    if Blank(text) then Ok([])
    else if chunkSize <= 0 then Err(BadChunkSize)
    else if overlap < 0 || overlap >= chunkSize then Err(BadOverlap)
    else Ok(Trimmings(Texts(ChunksOf(tok, text, chunkSize, overlap))))
  }

  /** No chunk of an answer is empty or begins or ends with white space. */
  lemma TrimmingsAreTrimmed(chunks: seq<string>)
    ensures forall c :: c in Trimmings(chunks) ==> c != "" && Trimmed(c)
  {
    hide Trim, Trimmed;
    var trimmed := Map(chunks, (c: string) => Trim(c));
    forall c | c in Trimmings(chunks)
      ensures c != "" && Trimmed(c)
    {
      FilterMember(trimmed, (c: string) => |c| > 0, c);
      var i :| 0 <= i < |trimmed| && trimmed[i] == c;
      TrimIsTrimmed(chunks[i]);
    }
  }

  /** The answer is what the merged pieces give; whatever they are, a blank text has no chunks, settings that make no
      sense are rejected for any other text, and chunks are trimmed and not empty. */
  method Split(tok: Tokenizer, text: string, chunkSize: int, overlap: int) returns (r: Result<seq<string>, ChunkError>)
    ensures r == Answer(tok, text, chunkSize, overlap)
    ensures Solid(text) == "" ==> r == Ok([])
    ensures Solid(text) != "" ==>
              && (r == Err(BadChunkSize) <==> chunkSize <= 0)
              && (r == Err(BadOverlap) <==> chunkSize > 0 && !(0 <= overlap < chunkSize))
    ensures r.Ok? ==> forall c :: c in r.value ==> c != "" && Trimmed(c)
  {
    BlankIffNoSolid(text);
    hide Trimmed, Solid;
    if text == "" || Trim(text) == "" {
      return Ok([]);
    }
    if chunkSize <= 0 {
      return Err(BadChunkSize);
    }
    if overlap < 0 || overlap >= chunkSize {
      return Err(BadOverlap);
    }
    var pieces := RecursiveSplit(tok.count, PreClean(text), SEPARATORS);
    var chunks := MergePieces(tok, pieces, chunkSize, overlap);
    TrimmingsAreTrimmed(chunks);
    return Ok(Trimmings(chunks));
  }

  lemma {:induction false} TrimmingsKeepText(chunks: seq<string>)
    ensures KeptIn(Trimmings(chunks)) == KeptIn(chunks)
  {
    hide Kept, Trim;
    if chunks != [] {
      var c, rest := Trim(chunks[0]), chunks[1..];
      TrimmingsKeepText(rest);
      SolidTrim(chunks[0]);
      KeptOfSolid(chunks[0]);
      KeptOfSolid(c);
      KeptAppend(chunks[0], Concat(rest));
      var mapped := Map(chunks, (x: string) => Trim(x));
      assert mapped[1..] == Map(rest, (x: string) => Trim(x));
      if c == "" {
        assert "" + Kept(Concat(rest)) == Kept(Concat(rest));
        KeptOfNothing();
      } else {
        assert Trimmings(chunks) == [c] + Trimmings(rest);
        assert ([c] + Trimmings(rest))[1..] == Trimmings(rest);
        KeptAppend(c, Concat(Trimmings(rest)));
      }
    }
  }

  /** The pieces of a text keep all of it but white space and separator punctuation. */
  lemma PiecesOfCleanText(tok: Tokenizer, text: string)
    ensures var pieces := Pieces(tok.count, PreClean(text), SEPARATORS);
            NoneBlank(pieces) && KeptIn(pieces) == Kept(text)
  {
    hide Kept, PreClean, Blank, Pieces;
    CleaningKeepsText(text);
    KeptOfSolid(text);
    KeptOfSolid(PreClean(text));
    SeparatorsAreNegligible();
    PiecesKeepText(tok.count, PreClean(text), SEPARATORS);
    PiecesAreNotBlank(tok.count, PreClean(text), SEPARATORS);
  }

  /** Whatever the overlap: what the chunks add, in order, is the kept text, nothing lost and nothing twice. */
  lemma ChunksKeepText(tok: Tokenizer, text: string, chunkSize: nat, overlap: nat)
    requires chunkSize > 0
    ensures Kept(Owned(ChunksOf(tok, text, chunkSize, overlap))) == Kept(text)
    ensures CarriesTails(tok, ChunksOf(tok, text, chunkSize, overlap), overlap)
  {
    hide Kept, PreClean, Pieces, Merged, Owned, CarriesTails, AllSound, AllChunks, AllPieces;
    PiecesOfCleanText(tok, text);
    var groups := ChunksPartitionPieces(tok, Pieces(tok.count, PreClean(text), SEPARATORS), chunkSize, overlap);
    GroupsOwnPieces(tok, groups, chunkSize, overlap);
  }

  lemma {:induction false} NothingCarried(chunks: seq<Chunk>)
    requires forall k :: 0 <= k < |chunks| ==> chunks[k].carried == ""
    ensures Concat(Texts(chunks)) == Owned(chunks)
  {
    if chunks != [] {
      NothingCarried(chunks[1..]);
      assert Texts(chunks)[1..] == Texts(chunks[1..]);
      assert Map(chunks, (c: Chunk) => c.own)[1..] == Map(chunks[1..], (c: Chunk) => c.own);
      assert "" + chunks[0].own == chunks[0].own;
    }
  }

  /** Without overlap the answer itself keeps the text: every call that is not rejected returns chunks whose
      characters, but for white space and separator punctuation, are those of the text in order. */
  lemma SplitWithoutOverlapKeepsText(tok: Tokenizer, text: string, chunkSize: int)
    requires forall s :: tok.Tail(s, 0) == ""
    ensures var r := Answer(tok, text, chunkSize, 0);
            (r.Err? <==> !Blank(text) && chunkSize <= 0) && (r.Ok? ==> KeptIn(r.value) == Kept(text))
  {
    hide Kept, ChunksOf, Texts, Owned, Blank, Trimmings;
    if Blank(text) {
      BlankHasNothingKept(text);
      KeptInOne("");
    } else if chunkSize > 0 {
      var chunks := ChunksOf(tok, text, chunkSize, 0);
      ChunksKeepText(tok, text, chunkSize, 0);
      forall k | 0 <= k < |chunks|
        ensures chunks[k].carried == ""
      {
        assert Carries(tok, chunks[..k], chunks[k], 0);
      }
      NothingCarried(chunks);
      TrimmingsKeepText(Texts(chunks));
    }
  }
}
