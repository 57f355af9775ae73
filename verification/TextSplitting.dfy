/** Cutting a text into pieces at a hierarchy of separators. */
module TextSplitting {
  import opened Collections
  import opened EventLines
  import opened TextCleaning

  type Counter = string -> nat

  const SEPARATORS := ["\n\n", "\n", ". ", "! ", "? ", "; ", ", ", " ", ""]

  /** String.prototype.split with a separator that is not empty. */
  function SplitAt(s: string, sep: string): (r: seq<string>)
    requires sep != ""
    ensures |r| > 0
    decreases |s|
  {
    if s == "" then [""]
    else if StartsWith(s, sep) then [""] + SplitAt(s[|sep|..], sep)
    else
      var rest := SplitAt(s[1..], sep);
      [[s[0]] + rest[0]] + rest[1..]
  }

  function Characters(s: string): seq<string>
  {
    if s == "" then [] else [[s[0]]] + Characters(s[1..])
  }

  /** `text.split(sep)`; an empty separator cuts between all characters. */
  function Parts(text: string, sep: string): seq<string>
  {
    if sep == "" then Characters(text) else SplitAt(text, sep)
  }

  predicate Blank(s: string)
  {
    Trim(s) == ""
  }

  function NonBlank(pieces: seq<string>): seq<string>
  {
    Filter(pieces, (p: string) => !Blank(p))
  }

  /** `out[out.length - 1] += sep`, which touches no element when `out` is empty. */
  function Extend(pieces: seq<string>, sep: string): seq<string>
  {
    if pieces == [] then [] else pieces[..|pieces| - 1] + [pieces[|pieces| - 1] + sep]
  }

  // ---------- the pieces, as a recursive definition ----------

  function Pieces(count: Counter, text: string, separators: seq<string>): seq<string>
    requires separators != []
    decreases |separators|, 1, 0, |text|
  {
    var parts := Parts(text, separators[0]);
    if |parts| == 1 && |separators| > 1 then Pieces(count, text, separators[1..])
    else NonBlank(Gather(count, parts, separators))
  }

  /** The pieces of one part that is not empty. */
  function PiecesOf(count: Counter, part: string, separators: seq<string>): seq<string>
    requires separators != []
    decreases |separators|, 0, 0, |part|
  {
    if |separators| > 1 && count(part) > 800 then Pieces(count, part, separators[1..]) else [part]
  }

  /** What the pieces gathered before become with the last of `parts`, which is not the last of all when `more`. */
  function Gathered(count: Counter, out: seq<string>, part: string, separators: seq<string>, more: bool): seq<string>
    requires separators != []
    decreases |separators|, 0, 1, |part|
  {
    if part == "" then out
    else
      var all := out + PiecesOf(count, part, separators);
      if more && separators[0] != "" then Extend(all, separators[0]) else all
  }

  /** The pieces of the first `k` parts. */
  function GatherFirst(count: Counter, parts: seq<string>, separators: seq<string>, k: nat): seq<string>
    requires separators != [] && k <= |parts|
    decreases |separators|, 0, 2 + k, |parts|
  {
    if k == 0 then []
    else Gathered(count, GatherFirst(count, parts, separators, k - 1), parts[k - 1], separators, k < |parts|)
  }

  function Gather(count: Counter, parts: seq<string>, separators: seq<string>): seq<string>
    requires separators != []
    decreases |separators|, 0, 3 + |parts|, |parts|
  {
    GatherFirst(count, parts, separators, |parts|)
  }

  lemma NothingGathered(count: Counter, parts: seq<string>, separators: seq<string>)
    requires separators != []
    ensures GatherFirst(count, parts, separators, 0) == []
  {
  }

  lemma GatherOneMore(count: Counter, parts: seq<string>, separators: seq<string>, k: nat)
    requires separators != [] && k < |parts|
    ensures GatherFirst(count, parts, separators, k + 1) ==
            Gathered(count, GatherFirst(count, parts, separators, k), parts[k], separators, k + 1 < |parts|)
  {
  }

  method RecursiveSplit(count: Counter, text: string, separators: seq<string>) returns (out: seq<string>)
    requires separators != []
    ensures out == Pieces(count, text, separators)
    decreases |separators|
  {
    hide GatherFirst, Parts, NonBlank, Extend;
    var sep, next := separators[0], separators[1..];
    var parts := Parts(text, sep);
    if |parts| == 1 && |next| > 0 {
      out := RecursiveSplit(count, text, next);
      return;
    }
    out := [];
    NothingGathered(count, parts, separators);
    for i := 0 to |parts|
      invariant out == GatherFirst(count, parts, separators, i)
    {
      var p := parts[i];
      GatherOneMore(count, parts, separators, i);
      ghost var before := out;
      if p == "" {
        continue;
      }
      if |next| > 0 && count(p) > 800 {
        var sub := RecursiveSplit(count, p, next);
        out := out + sub;
      } else {
        out := out + [p];
      }
      assert out == before + PiecesOf(count, p, separators);
      if i < |parts| - 1 && sep != "" {
        out := Extend(out, sep);
      }
    }
    out := NonBlank(out);
  }

  // ---------- nothing but white space and separators is lost ----------

  predicate Dropped(c: char)
  {
    IsSpace(c) || c in ".!?;,"
  }

  /** The characters that splitting must not lose. */
  function Kept(s: string): string
  {
    Filter(s, (c: char) => !Dropped(c))
  }

  lemma KeptAppend(a: string, b: string)
    ensures Kept(a + b) == Kept(a) + Kept(b)
  {
    FilterAppend(a, b, (c: char) => !Dropped(c));
  }

  lemma {:induction false} KeptOfSolid(s: string)
    ensures Kept(Solid(s)) == Kept(s)
  {
    if s != "" {
      KeptOfSolid(s[1..]);
      if !IsSpace(s[0]) {
        assert ([s[0]] + Solid(s[1..]))[1..] == Solid(s[1..]);
      }
    }
  }

  lemma {:induction false} DroppedIsLost(s: string)
    requires forall i :: 0 <= i < |s| ==> Dropped(s[i])
    ensures Kept(s) == ""
  {
    if s != "" {
      DroppedIsLost(s[1..]);
    }
  }

  /** Separators that consist of dropped characters. */
  ghost predicate Negligible(separators: seq<string>)
  {
    forall k :: 0 <= k < |separators| ==> Kept(separators[k]) == ""
  }

  lemma SeparatorsAreNegligible()
    ensures Negligible(SEPARATORS)
  {
    forall k | 0 <= k < |SEPARATORS|
      ensures Kept(SEPARATORS[k]) == ""
    {
      DroppedIsLost(SEPARATORS[k]);
    }
  }

  /** All the kept characters of a list of pieces. */
  function KeptIn(pieces: seq<string>): string
  {
    Kept(Concat(pieces))
  }

  lemma KeptInAppend(a: seq<string>, b: seq<string>)
    ensures KeptIn(a + b) == KeptIn(a) + KeptIn(b)
  {
    ConcatAppend(a, b);
    KeptAppend(Concat(a), Concat(b));
  }

  lemma KeptInOne(s: string)
    ensures KeptIn([s]) == Kept(s) && KeptIn([]) == ""
  {
    assert Concat([s]) == s + Concat([]);
    assert s + "" == s;
  }

  lemma {:induction false} PartsKeepText(text: string, sep: string)
    requires Kept(sep) == ""
    ensures KeptIn(Parts(text, sep)) == Kept(text)
  {
    if sep == "" {
      CharactersAreText(text);
    } else {
      SplitAtKeepsText(text, sep);
    }
  }

  lemma {:induction false} CharactersAreText(text: string)
    ensures Concat(Characters(text)) == text
  {
    if text != "" {
      CharactersAreText(text[1..]);
      assert ([[text[0]]] + Characters(text[1..]))[1..] == Characters(text[1..]);
    }
  }

  lemma {:induction false} SplitAtKeepsText(s: string, sep: string)
    requires sep != "" && Kept(sep) == ""
    ensures KeptIn(SplitAt(s, sep)) == Kept(s)
    decreases |s|
  {
    hide Kept;
    if s == "" {
      KeptInOne("");
    } else if StartsWith(s, sep) {
      var rest := SplitAt(s[|sep|..], sep);
      SplitAtKeepsText(s[|sep|..], sep);
      KeptAppend(sep, s[|sep|..]);
      assert s == sep + s[|sep|..];
      KeptInAppend([""], rest);
      KeptInOne("");
      KeptOfNothing();
      assert "" + Kept(s[|sep|..]) == Kept(s[|sep|..]);
    } else {
      var rest := SplitAt(s[1..], sep);
      SplitAtKeepsText(s[1..], sep);
      KeptAppend([s[0]], s[1..]);
      assert s == [s[0]] + s[1..];
      assert Concat(SplitAt(s, sep)) == [s[0]] + Concat(rest) by {
        assert ([[s[0]] + rest[0]] + rest[1..])[1..] == rest[1..];
        assert [s[0]] + rest[0] + Concat(rest[1..]) == [s[0]] + (rest[0] + Concat(rest[1..]));
      }
      KeptAppend([s[0]], Concat(rest));
    }
  }

  lemma KeptOfNothing()
    ensures Kept("") == ""
  {
  }

  lemma BlankHasNothingKept(p: string)
    requires Blank(p)
    ensures Kept(p) == ""
  {
    SolidTrim(p);
    KeptOfSolid(p);
  }

  lemma {:induction false} NonBlankKeepsText(pieces: seq<string>)
    ensures KeptIn(NonBlank(pieces)) == KeptIn(pieces)
  {
    hide Kept, Blank;
    if pieces != [] {
      var rest := pieces[1..];
      NonBlankKeepsText(rest);
      KeptAppend(pieces[0], Concat(rest));
      if Blank(pieces[0]) {
        BlankHasNothingKept(pieces[0]);
        assert "" + Kept(Concat(rest)) == Kept(Concat(rest));
      } else {
        assert ([pieces[0]] + NonBlank(rest))[1..] == NonBlank(rest);
        KeptAppend(pieces[0], Concat(NonBlank(rest)));
      }
    }
  }

  lemma ExtendKeepsText(pieces: seq<string>, sep: string)
    requires Kept(sep) == ""
    ensures KeptIn(Extend(pieces, sep)) == KeptIn(pieces)
  {
    hide Kept;
    if pieces != [] {
      var n := |pieces| - 1;
      KeptInAppend(pieces[..n], [pieces[n] + sep]);
      KeptInAppend(pieces[..n], [pieces[n]]);
      KeptInOne(pieces[n] + sep);
      KeptInOne(pieces[n]);
      KeptAppend(pieces[n], sep);
      assert pieces == pieces[..n] + [pieces[n]];
      assert Kept(pieces[n]) + "" == Kept(pieces[n]);
    }
  }

  lemma {:induction false} GatherKeepsText(count: Counter, parts: seq<string>, separators: seq<string>, k: nat)
    requires separators != [] && Negligible(separators) && k <= |parts|
    ensures KeptIn(GatherFirst(count, parts, separators, k)) == KeptIn(parts[..k])
    decreases |separators|, 0, k
  {
    hide Kept, Pieces, KeptIn;
    if k == 0 {
      assert parts[..0] == [];
    } else {
      var out, part := GatherFirst(count, parts, separators, k - 1), parts[k - 1];
      GatherKeepsText(count, parts, separators, k - 1);
      assert parts[..k] == parts[..k - 1] + [part];
      KeptInAppend(parts[..k - 1], [part]);
      KeptInOne(part);
      if part == "" {
        KeptOfNothing();
        assert KeptIn(out) + "" == KeptIn(out);
      } else {
        var own := PiecesOf(count, part, separators);
        if |separators| > 1 && count(part) > 800 {
          PiecesKeepText(count, part, separators[1..]);
        }
        KeptInAppend(out, own);
        ExtendKeepsText(out + own, separators[0]);
      }
    }
  }

  /** Recursive splitting loses and adds nothing but white space and the punctuation of the separators:
      the other characters survive in order. */
  lemma {:induction false} PiecesKeepText(count: Counter, text: string, separators: seq<string>)
    requires separators != [] && Negligible(separators)
    ensures KeptIn(Pieces(count, text, separators)) == Kept(text)
    decreases |separators|, 1, 0
  {
    hide Kept, KeptIn;
    var parts := Parts(text, separators[0]);
    if |parts| == 1 && |separators| > 1 {
      PiecesKeepText(count, text, separators[1..]);
    } else {
      PartsKeepText(text, separators[0]);
      GatherKeepsText(count, parts, separators, |parts|);
      assert parts[..|parts|] == parts;
      NonBlankKeepsText(Gather(count, parts, separators));
    }
  }

  /** No piece is blank. */
  lemma {:induction false} PiecesAreNotBlank(count: Counter, text: string, separators: seq<string>)
    requires separators != []
    ensures forall p :: p in Pieces(count, text, separators) ==> !Blank(p)
    decreases |separators|
  {
    hide Blank;
    var parts := Parts(text, separators[0]);
    if |parts| == 1 && |separators| > 1 {
      PiecesAreNotBlank(count, text, separators[1..]);
    } else {
      forall p | p in Pieces(count, text, separators)
        ensures !Blank(p)
      {
        FilterMember(Gather(count, parts, separators), (x: string) => !Blank(x), p);
      }
    }
  }

  // ---------- cutting is exact, and happens only where it must ----------

  /** `parts.join(sep)` */
  function JoinedBy(parts: seq<string>, sep: string): string
  {
    if parts == [] then ""
    else if |parts| == 1 then parts[0]
    else parts[0] + sep + JoinedBy(parts[1..], sep)
  }

  ghost predicate Contains(s: string, sep: string)
  {
    exists k :: 0 <= k <= |s| && StartsWith(s[k..], sep)
  }

  /** The parts are the text without the separators. */
  lemma {:induction false} PartsJoinBack(s: string, sep: string)
    requires sep != ""
    ensures JoinedBy(SplitAt(s, sep), sep) == s
    decreases |s|
  {
    if s == "" {
    } else if StartsWith(s, sep) {
      PartsJoinBack(s[|sep|..], sep);
      var rest := SplitAt(s[|sep|..], sep);
      assert ([""] + rest)[1..] == rest;
      assert "" + sep + JoinedBy(rest, sep) == sep + JoinedBy(rest, sep);
      assert s == sep + s[|sep|..];
    } else {
      PartsJoinBack(s[1..], sep);
      JoinedFirst(s[0], SplitAt(s[1..], sep), sep);
      assert s == [s[0]] + s[1..];
    }
  }

  lemma JoinedFirst(c: char, rest: seq<string>, sep: string)
    requires rest != []
    ensures JoinedBy([[c] + rest[0]] + rest[1..], sep) == [c] + JoinedBy(rest, sep)
  {
    var all := [[c] + rest[0]] + rest[1..];
    assert all[1..] == rest[1..];
    if |rest| > 1 {
      assert [c] + rest[0] + sep + JoinedBy(rest[1..], sep) == [c] + (rest[0] + sep + JoinedBy(rest[1..], sep));
    }
  }

  lemma {:induction false} FirstPartIsPrefix(s: string, sep: string)
    requires sep != ""
    ensures StartsWith(s, SplitAt(s, sep)[0])
    decreases |s|
  {
    if s != "" && !StartsWith(s, sep) {
      FirstPartIsPrefix(s[1..], sep);
      var first := SplitAt(s[1..], sep)[0];
      assert s[..|first| + 1] == [s[0]] + s[1..][..|first|];
    }
  }

  lemma PrefixOfPrefix(s: string, p: string, sep: string)
    requires StartsWith(s, p)
    ensures StartsWith(p, sep) ==> StartsWith(s, sep)
  {
    if StartsWith(p, sep) {
      assert s[..|sep|] == p[..|sep|];
    }
  }

  /** And no separator is left in a part. */
  lemma {:induction false} PartsHaveNoSeparator(s: string, sep: string)
    requires sep != ""
    ensures forall p :: p in SplitAt(s, sep) ==> !Contains(p, sep)
    decreases |s|
  {
    hide StartsWith;
    if s == "" {
      NothingContained(sep);
    } else if StartsWith(s, sep) {
      StartIsLong(s, sep);
      PartsHaveNoSeparator(s[|sep|..], sep);
      NothingContained(sep);
    } else {
      PartsHaveNoSeparator(s[1..], sep);
      FirstPartIsPrefix(s, sep);
      var rest := SplitAt(s[1..], sep);
      var first := [s[0]] + rest[0];
      assert SplitAt(s, sep) == [first] + rest[1..] && rest[0] in rest;
      ContainsFirst(s[0], rest[0], sep);
      PrefixOfPrefix(s, first, sep);
    }
  }

  lemma ContainsFirst(c: char, r: string, sep: string)
    ensures Contains([c] + r, sep) ==> StartsWith([c] + r, sep) || Contains(r, sep)
  {
    hide StartsWith;
    var all := [c] + r;
    if k: nat :| k <= |all| && StartsWith(all[k..], sep) {
      if k == 0 {
        assert all[0..] == all;
      } else {
        assert all[k..] == r[k - 1..];
      }
    }
  }

  lemma NothingContained(sep: string)
    requires sep != ""
    ensures !Contains("", sep)
  {
  }

  lemma StartIsLong(s: string, sep: string)
    requires StartsWith(s, sep)
    ensures |sep| <= |s|
  {
  }

  /** A text that was small enough, or a single character, with nothing after it but separators. */
  ghost predicate Small(count: Counter, p: string)
  {
    exists k :: 0 <= k <= |p| && (count(p[..k]) <= 800 || k == 1) && forall i :: k <= i < |p| ==> Dropped(p[i])
  }

  ghost predicate AllSmall(count: Counter, pieces: seq<string>)
  {
    forall p :: p in pieces ==> Small(count, p)
  }

  ghost predicate OfDropped(separators: seq<string>)
  {
    forall k :: 0 <= k < |separators| ==> forall i :: 0 <= i < |separators[k]| ==> Dropped(separators[k][i])
  }

  lemma SmallWithSeparator(count: Counter, p: string, sep: string)
    requires Small(count, p) && forall i :: 0 <= i < |sep| ==> Dropped(sep[i])
    ensures Small(count, p + sep)
  {
    var k :| 0 <= k <= |p| && (count(p[..k]) <= 800 || k == 1) && forall i :: k <= i < |p| ==> Dropped(p[i]);
    assert (p + sep)[..k] == p[..k];
  }

  lemma SmallItself(count: Counter, p: string)
    requires count(p) <= 800 || |p| == 1
    ensures Small(count, p)
  {
    assert p[..|p|] == p;
  }

  lemma ExtendKeepsSmall(count: Counter, pieces: seq<string>, sep: string)
    requires AllSmall(count, pieces) && forall i :: 0 <= i < |sep| ==> Dropped(sep[i])
    ensures AllSmall(count, Extend(pieces, sep))
  {
    hide Small;
    if pieces != [] {
      SmallWithSeparator(count, pieces[|pieces| - 1], sep);
    }
  }

  lemma {:induction false} CharactersAreSingle(s: string)
    ensures forall p :: p in Characters(s) ==> |p| == 1
  {
    if s != "" {
      CharactersAreSingle(s[1..]);
    }
  }

  lemma {:induction false} GatheredIsSmall(count: Counter, parts: seq<string>, separators: seq<string>, k: nat)
    requires separators != [] && OfDropped(separators) && separators[|separators| - 1] == "" && k <= |parts|
    requires |separators| == 1 ==> forall p :: p in parts ==> |p| == 1
    ensures AllSmall(count, GatherFirst(count, parts, separators, k))
    decreases |separators|, 0, k
  {
    hide Small, Pieces;
    if k > 0 {
      var out, part := GatherFirst(count, parts, separators, k - 1), parts[k - 1];
      GatheredIsSmall(count, parts, separators, k - 1);
      assert part in parts;
      if part != "" {
        if |separators| > 1 && count(part) > 800 {
          PiecesAreSmall(count, part, separators[1..]);
        } else {
          SmallItself(count, part);
        }
        ExtendKeepsSmall(count, out + PiecesOf(count, part, separators), separators[0]);
      }
    }
  }

  /** Nothing stays too large: but for separators at its end every piece has at most 800 tokens or is a single
      character. */
  lemma {:induction false} PiecesAreSmall(count: Counter, text: string, separators: seq<string>)
    requires separators != [] && OfDropped(separators) && separators[|separators| - 1] == ""
    ensures AllSmall(count, Pieces(count, text, separators))
    decreases |separators|, 1, 0
  {
    hide Small, Blank;
    var parts := Parts(text, separators[0]);
    if |parts| == 1 && |separators| > 1 {
      PiecesAreSmall(count, text, separators[1..]);
    } else {
      CharactersAreSingle(text);
      GatheredIsSmall(count, parts, separators, |parts|);
      forall p | p in Pieces(count, text, separators)
        ensures Small(count, p)
      {
        FilterMember(Gather(count, parts, separators), (x: string) => !Blank(x), p);
      }
    }
  }

  lemma SeparatorsAreOfDropped()
    ensures OfDropped(SEPARATORS) && SEPARATORS[|SEPARATORS| - 1] == ""
  {
  }

  /** Part `i` with the separator behind it, unless it is the last one. */
  function Closed(parts: seq<string>, sep: string, i: nat): string
    requires i < |parts|
  {
    if i + 1 < |parts| then parts[i] + sep else parts[i]
  }

  function AllClosed(parts: seq<string>, sep: string, k: nat): seq<string>
    requires k <= |parts|
  {
    seq(k, i requires 0 <= i < k => Closed(parts, sep, i))
  }

  lemma {:induction false} GatheredWhole(count: Counter, parts: seq<string>, separators: seq<string>, k: nat)
    requires separators != [] && k <= |parts| && forall p :: p in parts ==> p != "" && count(p) <= 800
    ensures GatherFirst(count, parts, separators, k) == AllClosed(parts, separators[0], k)
    decreases k
  {
    hide Pieces;
    if k > 0 {
      GatheredWhole(count, parts, separators, k - 1);
      assert parts[k - 1] in parts;
      GatherOneMore(count, parts, separators, k - 1);
      var before, sep := AllClosed(parts, separators[0], k - 1), separators[0];
      assert (before + [parts[k - 1]])[..k - 1] == before;
      assert parts[k - 1] + "" == parts[k - 1];
    }
  }

  /** And nothing is cut needlessly: when the first separator that occurs cuts the text into parts of at most 800
      tokens, none of them blank, the pieces are these parts, each with its separator. */
  lemma SmallPartsStayWhole(count: Counter, text: string, separators: seq<string>)
    requires separators != [] && separators[0] != ""
    requires var parts := SplitAt(text, separators[0]);
             |parts| > 1 && forall p :: p in parts ==> !Blank(p) && count(p) <= 800
    ensures var parts := SplitAt(text, separators[0]);
            Pieces(count, text, separators) == AllClosed(parts, separators[0], |parts|)
  {
    hide SplitAt, GatherFirst, Blank;
    var parts := SplitAt(text, separators[0]);
    assert "" !in parts by { BlankNothing(); }
    GatheredWhole(count, parts, separators, |parts|);
    var all := AllClosed(parts, separators[0], |parts|);
    forall p | p in all
      ensures !Blank(p)
    {
      var i :| 0 <= i < |all| && all[i] == p;
      assert parts[i] in parts;
      BlankPrefix(parts[i], separators[0]);
    }
    NoneFiltered(all);
  }

  lemma BlankNothing()
    ensures Blank("")
  {
  }

  lemma BlankPrefix(a: string, b: string)
    requires !Blank(a)
    ensures !Blank(a + b)
  {
    SolidTrim(a);
    SolidTrim(a + b);
    SolidAppend(a, b);
    if Blank(a + b) {
      assert Solid("") == "";
      assert |Solid(a)| == 0;
      SolidOfNotBlank(a);
    }
  }

  lemma {:induction false} SolidOfNotBlank(a: string)
    requires !Blank(a)
    ensures Solid(a) != ""
  {
    SolidTrim(a);
    TrimIsTrimmed(a);
    FilterMember(Trim(a), (c: char) => !IsSpace(c), Trim(a)[0]);
  }

  lemma {:induction false} NoneFiltered(pieces: seq<string>)
    requires forall p :: p in pieces ==> !Blank(p)
    ensures NonBlank(pieces) == pieces
  {
    hide Blank;
    if pieces != [] {
      assert pieces[0] in pieces;
      NoneFiltered(pieces[1..]);
    }
  }
}
