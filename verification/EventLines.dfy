/** Lines of an event stream, collected from reads that may cut the text anywhere. */
module EventLines {
  import opened Collections

  /** String.prototype.split: never empty, and the last element is what follows the last separator. */
  function Split(s: string, sep: char): (r: seq<string>)
    ensures |r| > 0
  {
    if s == "" then [""]
    else
      var rest := Split(s[1..], sep);
      if s[0] == sep then [""] + rest else [[s[0]] + rest[0]] + rest[1..]
  }

  /** Array.prototype.join. */
  function Join(lines: seq<string>, sep: char): string
  {
    if lines == [] then ""
    else if |lines| == 1 then lines[0]
    else lines[0] + [sep] + Join(lines[1..], sep)
  }

  function AllButLast<T>(s: seq<T>): seq<T>
    requires |s| > 0
  {
    s[..|s| - 1]
  }

  function Last<T>(s: seq<T>): T
    requires |s| > 0
  {
    s[|s| - 1]
  }

  /** The lines of `text` that are closed by a newline. */
  function ClosedLines(text: string): seq<string>
  {
    AllButLast(Split(text, '\n'))
  }

  /** What follows the last newline. */
  function OpenLine(text: string): string
  {
    Last(Split(text, '\n'))
  }

  lemma {:induction false} SplitAppend(a: string, b: string, sep: char)
    ensures Split(a + b, sep) == AllButLast(Split(a, sep)) + Split(Last(Split(a, sep)) + b, sep)
    decreases |a|
  {
    if a == "" {
      assert "" + b == b;
      assert AllButLast(Split(a, sep)) == [];
    } else {
      assert (a + b)[1..] == a[1..] + b;
      SplitAppend(a[1..], b, sep);
      SplitAppendFirst(a[0], Split(a[1..], sep), Split(a[1..] + b, sep), b, sep);
    }
  }

  lemma SplitCons(c: char, s: string, sep: char)
    requires c != sep
    ensures Split([c] + s, sep) == [[c] + Split(s, sep)[0]] + Split(s, sep)[1..]
  {
    assert ([c] + s)[1..] == s;
  }

  /** The effect of the first character on the two sides. */
  lemma SplitAppendFirst(c: char, rest: seq<string>, whole: seq<string>, b: string, sep: char)
    requires rest != [] && whole == AllButLast(rest) + Split(Last(rest) + b, sep)
    ensures var left := if c == sep then [""] + rest else [[c] + rest[0]] + rest[1..];
            var right := if c == sep then [""] + whole else [[c] + whole[0]] + whole[1..];
            right == AllButLast(left) + Split(Last(left) + b, sep)
  {
    hide Split;
    if c == sep {
      assert AllButLast([""] + rest) == [""] + AllButLast(rest);
    } else if |rest| == 1 {
      SplitCons(c, rest[0] + b, sep);
      assert [c] + rest[0] + b == [c] + (rest[0] + b);
      assert AllButLast(rest) == [] && AllButLast([[c] + rest[0]]) == [];
    } else {
      assert whole[0] == rest[0];
      assert AllButLast([[c] + rest[0]] + rest[1..]) == [[c] + rest[0]] + AllButLast(rest)[1..];
      assert whole[1..] == AllButLast(rest)[1..] + Split(Last(rest) + b, sep);
    }
  }

  /** One read: the lines it closes come after those closed before, and the rest is kept for the next one. */
  lemma ReadAppends(text: string, read: string)
    ensures ClosedLines(text + read) == ClosedLines(text) + ClosedLines(OpenLine(text) + read)
    ensures OpenLine(text + read) == OpenLine(OpenLine(text) + read)
  {
    SplitAppend(text, read, '\n');
  }

  // ---------- splitting is exact ----------

  /** The pieces contain no separator and joining them gives the text back; no other pieces do. */
  lemma {:induction false} SplitIsExact(s: string, sep: char)
    ensures Join(Split(s, sep), sep) == s
    ensures forall i :: 0 <= i < |Split(s, sep)| ==> sep !in Split(s, sep)[i]
  {
    if s != "" {
      SplitIsExact(s[1..], sep);
      var rest := Split(s[1..], sep);
      assert s == [s[0]] + s[1..];
      if s[0] == sep {
        assert Split(s, sep)[1..] == rest;
      } else {
        assert Split(s, sep)[1..] == rest[1..];
        if |rest| > 1 {
          assert Join(Split(s, sep), sep) == [s[0]] + rest[0] + [sep] + Join(rest[1..], sep);
        }
      }
    }
  }

  lemma {:induction false} SplitOfLine(line: string, sep: char)
    requires sep !in line
    ensures Split(line, sep) == [line]
  {
    if line != "" {
      SplitOfLine(line[1..], sep);
      assert [line[0]] + line[1..] == line;
    }
  }

  lemma {:induction false} SplitOfJoin(lines: seq<string>, sep: char)
    requires lines != [] && forall i :: 0 <= i < |lines| ==> sep !in lines[i]
    ensures Split(Join(lines, sep), sep) == lines
  {
    SplitOfLine(lines[0], sep);
    if |lines| > 1 {
      SplitOfJoin(lines[1..], sep);
      var tail := [sep] + Join(lines[1..], sep);
      SplitAppend(lines[0], tail, sep);
      SplitAppend(lines[0] + [sep], Join(lines[1..], sep), sep);
      assert tail[1..] == Join(lines[1..], sep);
      SplitAppend(lines[0], [sep], sep);
      SplitCloses(lines[0], sep);
      assert lines[0] + [sep] + Join(lines[1..], sep) == lines[0] + tail;
      assert "" + Join(lines[1..], sep) == Join(lines[1..], sep);
    }
  }

  lemma {:induction false} SplitCloses(line: string, sep: char)
    requires sep !in line
    ensures Split(line + [sep], sep) == [line, ""]
  {
    if line == "" {
      assert "" + [sep] == [sep] && [sep][1..] == "";
    } else {
      assert (line + [sep])[1..] == line[1..] + [sep];
      SplitCloses(line[1..], sep);
      assert [line[0]] + line[1..] == line;
    }
  }

  // ---------- trimming ----------

  /** The white space and line terminators that String.prototype.trim removes. */
  predicate IsSpace(c: char)
  {
    || c == ' ' || '\t' <= c <= '\r' || c == '\U{00A0}' || c == '\U{1680}' || '\U{2000}' <= c <= '\U{200A}'
    || c == '\U{2028}' || c == '\U{2029}' || c == '\U{202F}' || c == '\U{205F}' || c == '\U{3000}' || c == '\U{FEFF}'
  }

  /** They are the 25 characters that the language standard counts as white space or line terminators. */
  lemma SpacesAre(c: char)
    ensures IsSpace(c) <==>
              c in ['\U{0009}', '\U{000A}', '\U{000B}', '\U{000C}', '\U{000D}', '\U{0020}', '\U{00A0}', '\U{1680}',
                    '\U{2000}', '\U{2001}', '\U{2002}', '\U{2003}', '\U{2004}', '\U{2005}', '\U{2006}', '\U{2007}',
                    '\U{2008}', '\U{2009}', '\U{200A}', '\U{2028}', '\U{2029}', '\U{202F}', '\U{205F}', '\U{3000}',
                    '\U{FEFF}']
  {
  }

  function TrimStart(s: string): string
  {
    if s != "" && IsSpace(s[0]) then TrimStart(s[1..]) else s
  }

  function TrimEnd(s: string): string
  {
    if s != "" && IsSpace(s[|s| - 1]) then TrimEnd(s[..|s| - 1]) else s
  }

  function Trim(s: string): string
  {
    TrimEnd(TrimStart(s))
  }

  predicate Trimmed(s: string)
  {
    s == "" || (!IsSpace(s[0]) && !IsSpace(s[|s| - 1]))
  }

  lemma {:induction false} TrimStartTrims(s: string)
    ensures TrimStart(s) == "" || !IsSpace(TrimStart(s)[0])
  {
    if s != "" && IsSpace(s[0]) {
      TrimStartTrims(s[1..]);
    }
  }

  lemma {:induction false} TrimEndTrims(s: string)
    requires s == "" || !IsSpace(s[0])
    ensures Trimmed(TrimEnd(s))
  {
    if s != "" && IsSpace(s[|s| - 1]) {
      TrimEndTrims(s[..|s| - 1]);
    }
  }

  lemma TrimIsTrimmed(s: string)
    ensures Trimmed(Trim(s))
  {
    TrimStartTrims(s);
    TrimEndTrims(TrimStart(s));
  }

  predicate AllSpace(s: string)
  {
    forall i :: 0 <= i < |s| ==> IsSpace(s[i])
  }

  lemma {:induction false} TrimStartDrops(a: string, p: string)
    requires AllSpace(a) && (p == "" || !IsSpace(p[0]))
    ensures TrimStart(a + p) == p
  {
    if a == "" {
      assert a + p == p;
    } else {
      assert (a + p)[1..] == a[1..] + p;
      TrimStartDrops(a[1..], p);
    }
  }

  lemma {:induction false} TrimEndDrops(p: string, b: string)
    requires AllSpace(b) && (p == "" || !IsSpace(p[|p| - 1]))
    ensures TrimEnd(p + b) == p
    decreases |b|
  {
    if b == "" {
      assert p + b == p;
    } else {
      assert (p + b)[..|p + b| - 1] == p + b[..|b| - 1];
      TrimEndDrops(p, b[..|b| - 1]);
    }
  }

  lemma {:induction false} TrimStartSplits(s: string) returns (a: string)
    ensures AllSpace(a) && s == a + TrimStart(s)
  {
    if s != "" && IsSpace(s[0]) {
      var rest := TrimStartSplits(s[1..]);
      a := [s[0]] + rest;
      assert s == [s[0]] + s[1..];
    } else {
      a := "";
    }
  }

  lemma {:induction false} TrimEndSplits(s: string) returns (b: string)
    ensures AllSpace(b) && s == TrimEnd(s) + b
  {
    if s != "" && IsSpace(s[|s| - 1]) {
      var rest := TrimEndSplits(s[..|s| - 1]);
      b := rest + [s[|s| - 1]];
      assert s == s[..|s| - 1] + [s[|s| - 1]];
    } else {
      b := "";
    }
  }

  /** Trimming takes away the white space around a text, all of it and nothing else. */
  lemma TrimIff(s: string, p: string)
    ensures Trim(s) == p <==> Trimmed(p) && exists a, b :: AllSpace(a) && AllSpace(b) && s == a + p + b
  {
    if Trim(s) == p {
      TrimIsTrimmed(s);
      var a := TrimStartSplits(s);
      var b := TrimEndSplits(TrimStart(s));
      assert s == a + p + b;
    }
    if a, b :| Trimmed(p) && AllSpace(a) && AllSpace(b) && s == a + p + b {
      if p == "" {
        assert s == (a + b) + "";
        TrimStartDrops(a + b, "");
      } else {
        assert s == a + (p + b);
        TrimStartDrops(a, p + b);
        TrimEndDrops(p, b);
      }
    }
  }

  // ---------- data lines ----------

  predicate StartsWith(s: string, prefix: string)
  {
    |prefix| <= |s| && s[..|prefix|] == prefix
  }

  /** The payload of a line: nothing for other fields, empty payloads and the end marker. */
  function Payload(line: string): Option<string>
  {
    if !StartsWith(line, "data:") then None
    else
      var payload := Trim(line[5..]);
      if payload == "" || payload == "[DONE]" then None else Some(payload)
  }

  /** A line has a payload if and only if it begins with `data:` and something other than the end marker is left
      between the white space after that. */
  lemma PayloadIff(line: string, p: string)
    ensures Payload(line) == Some(p) <==>
              && p != "" && p != "[DONE]" && Trimmed(p)
              && exists a, b :: AllSpace(a) && AllSpace(b) && line == "data:" + (a + p + b)
  {
    hide Trim, Trimmed, AllSpace;
    if StartsWith(line, "data:") {
      TrimIff(line[5..], p);
      assert line == "data:" + line[5..];
    }
    if a, b :| AllSpace(a) && AllSpace(b) && line == "data:" + (a + p + b) {
      assert line[..5] == "data:" && line[5..] == a + p + b;
    }
  }

  /** At most one event per line; `parse` answers None when it throws, and such lines are ignored. */
  function EventsOf<E>(parse: string -> Option<E>, line: string): seq<E>
  {
    var payload := Payload(line);
    if payload.None? then []
    else
      var ev := parse(payload.value);
      if ev.None? then [] else [ev.value]
  }

  /** The events of the lines, in order. */
  function Events<E>(parse: string -> Option<E>, lines: seq<string>): seq<E>
  {
    if lines == [] then [] else EventsOf(parse, lines[0]) + Events(parse, lines[1..])
  }

  lemma {:induction false} EventsAppend<E>(parse: string -> Option<E>, a: seq<string>, b: seq<string>)
    ensures Events(parse, a + b) == Events(parse, a) + Events(parse, b)
  {
    hide EventsOf;
    if a == [] {
      assert a + b == b;
    } else {
      assert (a + b)[1..] == a[1..] + b;
      EventsAppend(parse, a[1..], b);
    }
  }

  lemma NothingReceived<E>(parse: string -> Option<E>)
    ensures Events(parse, ClosedLines(Concat([]))) == [] && OpenLine(Concat([])) == "" && Events(parse, []) == []
  {
  }

  /** One read more: its closed lines, together with the text kept so far, give the new events. */
  lemma OneMoreRead<E>(parse: string -> Option<E>, received: seq<string>, r: nat)
    requires r < |received|
    ensures var text, buffer := Concat(received[..r]), OpenLine(Concat(received[..r])) + received[r];
            && OpenLine(Concat(received[..r + 1])) == OpenLine(buffer)
            && Events(parse, ClosedLines(Concat(received[..r + 1])))
               == Events(parse, ClosedLines(text)) + Events(parse, ClosedLines(buffer))
  {
    hide Events, ClosedLines, OpenLine;
    var text := Concat(received[..r]);
    assert received[..r + 1] == received[..r] + [received[r]];
    ConcatOne(received[..r], received[r]);
    ReadAppends(text, received[r]);
    EventsAppend(parse, ClosedLines(text), ClosedLines(OpenLine(text) + received[r]));
  }

  /** One line more: its event, if it has one, is folded in last. */
  lemma OneMoreLine<S, E>(parse: string -> Option<E>, f: (S, E) -> S, s: S, before: seq<E>, lines: seq<string>, i: nat)
    requires i < |lines|
    ensures var payload := Payload(lines[i]);
            var t := Fold(f, s, before + Events(parse, lines[..i]));
            Fold(f, s, before + Events(parse, lines[..i + 1])) ==
            if payload.None? || parse(payload.value).None? then t else f(t, parse(payload.value).value)
  {
    hide Payload;
    var seen := Events(parse, lines[..i]);
    assert lines[..i + 1] == lines[..i] + [lines[i]];
    EventsAppend(parse, lines[..i], [lines[i]]);
    EventsCons(parse, lines[i], []);
    assert [lines[i]] + [] == [lines[i]];
    var own := EventsOf(parse, lines[i]);
    assert own + [] == own;
    if own == [] {
      assert before + (seen + []) == before + seen;
    } else {
      FoldOne(f, s, before + seen, own[0]);
      assert own == [own[0]];
      assert before + (seen + own) == before + seen + [own[0]];
    }
  }

  /** A printer whose texts fit on a `data:` line, and a parser that reads them back. */
  ghost predicate Codec<E(!new)>(show: E -> string, parse: string -> Option<E>)
  {
    forall e :: parse(show(e)) == Some(e) && Trimmed(show(e)) && show(e) != "" && show(e) != "[DONE]"
      && '\n' !in show(e)
  }

  /** The events as a stream: one `data:` line each. */
  function Printed<E>(show: E -> string, evs: seq<E>): string
  {
    if evs == [] then "" else "data: " + show(evs[0]) + "\n" + Printed(show, evs[1..])
  }

  /** Printing events and reading the stream back gives the same events. */
  lemma {:induction false} PrintedReadsBack<E(!new)>(show: E -> string, parse: string -> Option<E>, evs: seq<E>)
    requires Codec(show, parse)
    ensures Events(parse, ClosedLines(Printed(show, evs))) == evs && OpenLine(Printed(show, evs)) == ""
  {
    hide Payload, Trimmed, Split, Events, Codec;
    if evs == [] {
      NothingReadsBack(parse);
    } else {
      var line, rest := "data: " + show(evs[0]), Printed(show, evs[1..]);
      PrintedReadsBack(show, parse, evs[1..]);
      PrintedLine(show, parse, evs[0]);
      assert Printed(show, evs) == line + "\n" + rest;
      FirstLine(line, rest);
      EventsCons(parse, line, ClosedLines(rest));
      assert evs == [evs[0]] + evs[1..];
    }
  }

  lemma NothingReadsBack<E>(parse: string -> Option<E>)
    ensures Events(parse, ClosedLines("")) == [] && OpenLine("") == ""
  {
  }

  lemma EventsCons<E>(parse: string -> Option<E>, line: string, lines: seq<string>)
    ensures Events(parse, [line] + lines) == EventsOf(parse, line) + Events(parse, lines)
  {
    assert ([line] + lines)[1..] == lines;
  }

  lemma PrintedLine<E(!new)>(show: E -> string, parse: string -> Option<E>, e: E)
    requires Codec(show, parse)
    ensures EventsOf(parse, "data: " + show(e)) == [e] && '\n' !in "data: " + show(e)
  {
    var line := "data: " + show(e);
    assert line[..5] == "data:" && line[5..] == " " + show(e);
    assert (" " + show(e))[1..] == show(e);
    assert TrimStart(show(e)) == show(e);
    assert Payload("data: " + show(e)) == Some(show(e));
  }

  lemma FirstLine(line: string, rest: string)
    requires '\n' !in line
    ensures ClosedLines(line + "\n" + rest) == [line] + ClosedLines(rest)
    ensures OpenLine(line + "\n" + rest) == OpenLine(rest)
  {
    SplitCloses(line, '\n');
    SplitAppend(line + "\n", rest, '\n');
    assert "" + rest == rest;
  }
}
