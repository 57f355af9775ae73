/** The CSV line scanner and the table it makes of a file. */
module CsvExtractor {
  import opened Collections
  import opened EventLines
  import opened TextSplitting

  // ---------- the scanner ----------

  /** The fields of the rest of a line, before trimming, when `cur` has been read of the current one. */
  function Scan(s: string, cur: string, inQuotes: bool): (r: seq<string>)
    ensures |r| > 0
    decreases |s|
  {
    if s == "" then [cur]
    else if s[0] == '"' then
      if inQuotes && |s| > 1 && s[1] == '"' then Scan(s[2..], cur + "\"", true) else Scan(s[1..], cur, !inQuotes)
    else if s[0] == ',' && !inQuotes then [cur] + Scan(s[1..], "", false)
    else Scan(s[1..], cur + [s[0]], inQuotes)
  }

  function TrimAll(fields: seq<string>): seq<string>
  {
    Map(fields, (f: string) => Trim(f))
  }

  function Fields(line: string): seq<string>
  {
    TrimAll(Scan(line, "", false))
  }

  method Parse(line: string) returns (fields: seq<string>)
    ensures fields == Fields(line)
  {
    var out: seq<string> := [];
    var cur, inQuotes, i := "", false, 0;
    assert line[0..] == line && [] + Scan(line, "", false) == Scan(line, "", false);
    while i < |line|
      invariant 0 <= i <= |line|
      invariant Scan(line, "", false) == out + Scan(line[i..], cur, inQuotes)
    {
      var c := line[i];
      if c == '"' {
        if inQuotes && i + 1 < |line| && line[i + 1] == '"' {
          cur := cur + "\"";
          i := i + 1;
        } else {
          inQuotes := !inQuotes;
        }
      } else if c == ',' && !inQuotes {
        assert out + ([cur] + Scan(line[i + 1..], "", false)) == out + [cur] + Scan(line[i + 1..], "", false);
        out := out + [cur];
        cur := "";
      } else {
        cur := cur + [c];
      }
      i := i + 1;
    }
    out := out + [cur];
    fields := TrimAll(out);
  }

  // ---------- printing ----------

  /** Doubles the quotes, as rule 7 in section 2 of RFC 4180 asks. */
  function Escaped(f: string): string
  {
    if f == "" then "" else (if f[0] == '"' then "\"\"" else [f[0]]) + Escaped(f[1..])
  }

  function Quoted(f: string): string
  {
    "\"" + Escaped(f) + "\""
  }

  /** A field may go without quotes when it has neither a comma nor a quote. */
  predicate Plain(f: string)
  {
    ',' !in f && '"' !in f
  }

  function Printed(f: string, quote: bool): string
  {
    if quote || !Plain(f) then Quoted(f) else f
  }

  function PrintedFields(fields: seq<string>, quotes: seq<bool>): seq<string>
    requires |quotes| == |fields|
  {
    seq(|fields|, i requires 0 <= i < |fields| => Printed(fields[i], quotes[i]))
  }

  function PrintedLine(fields: seq<string>, quotes: seq<bool>): string
    requires |quotes| == |fields|
  {
    Join(PrintedFields(fields, quotes), ',')
  }

  // ---------- reading back ----------

  predicate AtFieldEnd(rest: string)
  {
    rest == "" || rest[0] == ','
  }

  lemma {:induction false} ScanEscaped(f: string, rest: string, cur: string)
    requires AtFieldEnd(rest)
    ensures Scan(Escaped(f) + "\"" + rest, cur, true) == Scan(rest, cur + f, false)
    decreases |f|
  {
    var s := Escaped(f) + "\"" + rest;
    if f == "" {
      assert s == "\"" + rest && s[1..] == rest;
      assert cur + f == cur;
    } else if f[0] == '"' {
      var tail := Escaped(f[1..]) + "\"" + rest;
      assert s == "\"\"" + tail && s[2..] == tail;
      ScanEscaped(f[1..], rest, cur + "\"");
      assert cur + "\"" + f[1..] == cur + f;
    } else {
      var tail := Escaped(f[1..]) + "\"" + rest;
      assert s == [f[0]] + tail && s[1..] == tail;
      ScanEscaped(f[1..], rest, cur + [f[0]]);
      assert cur + [f[0]] + f[1..] == cur + f;
    }
  }

  lemma {:induction false} ScanPlain(f: string, rest: string, cur: string)
    requires Plain(f)
    ensures Scan(f + rest, cur, false) == Scan(rest, cur + f, false)
    decreases |f|
  {
    if f == "" {
      assert f + rest == rest && cur + f == cur;
    } else {
      assert (f + rest)[1..] == f[1..] + rest;
      ScanPlain(f[1..], rest, cur + [f[0]]);
      assert cur + [f[0]] + f[1..] == cur + f;
    }
  }

  lemma ScanPrinted(f: string, quote: bool, rest: string)
    requires AtFieldEnd(rest)
    ensures Scan(Printed(f, quote) + rest, "", false) == Scan(rest, f, false)
  {
    assert "" + f == f;
    if quote || !Plain(f) {
      var tail := Escaped(f) + "\"" + rest;
      assert Printed(f, quote) + rest == "\"" + tail;
      assert ("\"" + tail)[1..] == tail;
      ScanEscaped(f, rest, "");
    } else {
      ScanPlain(f, rest, "");
    }
  }

  /** Scanning a printed line gives the fields back. */
  lemma {:induction false} PrintedScansBack(fields: seq<string>, quotes: seq<bool>)
    requires fields != [] && |quotes| == |fields|
    ensures Scan(PrintedLine(fields, quotes), "", false) == fields
    decreases |fields|
  {
    hide Scan, Printed;
    var first := Printed(fields[0], quotes[0]);
    if |fields| == 1 {
      ScanPrinted(fields[0], quotes[0], "");
      assert first + "" == first;
      ScanEnd(fields[0]);
    } else {
      var rest := PrintedLine(fields[1..], quotes[1..]);
      PrintedScansBack(fields[1..], quotes[1..]);
      assert PrintedFields(fields, quotes)[1..] == PrintedFields(fields[1..], quotes[1..]);
      assert PrintedLine(fields, quotes) == first + ("," + rest);
      ScanPrinted(fields[0], quotes[0], "," + rest);
      ScanComma(rest, fields[0]);
      assert fields == [fields[0]] + fields[1..];
    }
  }

  lemma ScanEnd(cur: string)
    ensures Scan("", cur, false) == [cur]
  {
  }

  lemma ScanComma(rest: string, cur: string)
    ensures Scan("," + rest, cur, false) == [cur] + Scan(rest, "", false)
  {
    assert ("," + rest)[1..] == rest;
  }

  /** Whether all fields are quoted or only those that need it: reading a printed line gives the fields, trimmed. */
  lemma LineRoundTrip(fields: seq<string>, quotes: seq<bool>)
    requires fields != [] && |quotes| == |fields|
    ensures Fields(PrintedLine(fields, quotes)) == TrimAll(fields)
    ensures |TrimAll(fields)| == |fields| && forall i :: 0 <= i < |fields| ==> TrimAll(fields)[i] == Trim(fields[i])
  {
    PrintedScansBack(fields, quotes);
  }

  // ---------- every line, printed or not ----------

  /** A comma separates fields if the number of quotes before it is even. */
  function Separators(s: string, inQuotes: bool): nat
  {
    if s == "" then 0
    else (if s[0] == ',' && !inQuotes then 1 else 0) + Separators(s[1..], if s[0] == '"' then !inQuotes else inQuotes)
  }

  lemma {:induction false} FieldsAreSeparated(s: string, cur: string, inQuotes: bool)
    ensures |Scan(s, cur, inQuotes)| == Separators(s, inQuotes) + 1
    decreases |s|
  {
    if s != "" {
      if s[0] == '"' {
        if inQuotes && |s| > 1 && s[1] == '"' {
          FieldsAreSeparated(s[2..], cur + "\"", true);
          assert s[1..][1..] == s[2..];
        } else {
          FieldsAreSeparated(s[1..], cur, !inQuotes);
        }
      } else if s[0] == ',' && !inQuotes {
        FieldsAreSeparated(s[1..], "", false);
      } else {
        FieldsAreSeparated(s[1..], cur + [s[0]], inQuotes);
      }
    }
  }

  function Unquoted(s: string): string
  {
    Filter(s, (c: char) => c != '"')
  }

  lemma UnquotedAppend(a: string, b: string)
    ensures Unquoted(a + b) == Unquoted(a) + Unquoted(b)
  {
    FilterAppend(a, b, (c: char) => c != '"');
  }

  lemma UnquotedOne(c: char)
    ensures Unquoted([c]) == if c == '"' then "" else [c]
  {
    FilterCons(c, [], (c: char) => c != '"');
    assert [c] + [] == [c] && [c] + "" == [c];
  }

  /** But for quotes, the fields with commas between them are the line. */
  lemma {:induction false} FieldsKeepText(s: string, cur: string, inQuotes: bool)
    ensures Unquoted(JoinedBy(Scan(s, cur, inQuotes), ",")) == Unquoted(cur) + Unquoted(s)
    decreases |s|
  {
    hide Unquoted;
    if s == "" {
      UnquotedNothing();
      assert Unquoted(cur) + "" == Unquoted(cur);
    } else {
      var c, rest := s[0], s[1..];
      assert s == [c] + rest;
      UnquotedAppend([c], rest);
      UnquotedOne(c);
      if c == '"' {
        if inQuotes && |s| > 1 && s[1] == '"' {
          assert rest == ['"'] + s[2..];
          UnquotedAppend(['"'], s[2..]);
          FieldsKeepText(s[2..], cur + "\"", true);
          UnquotedAppend(cur, "\"");
        } else {
          FieldsKeepText(rest, cur, !inQuotes);
        }
        assert "" + Unquoted(s[1..]) == Unquoted(s[1..]);
      } else if c == ',' && !inQuotes {
        FieldsKeepText(rest, "", false);
        var others := Scan(rest, "", false);
        assert ([cur] + others)[1..] == others;
        UnquotedAppend(cur + ",", JoinedBy(others, ","));
        UnquotedAppend(cur, ",");
        UnquotedNothing();
      } else {
        FieldsKeepText(rest, cur + [c], inQuotes);
        UnquotedAppend(cur, [c]);
      }
    }
  }

  lemma UnquotedNothing()
    ensures Unquoted("") == ""
  {
  }

  /** A quote in a field comes from two quotes in the line. */
  lemma {:induction false} QuotesAreDoubled(s: string, cur: string, inQuotes: bool)
    requires '"' !in cur && forall i :: 0 <= i < |s| - 1 ==> !(s[i] == '"' && s[i + 1] == '"')
    ensures forall f :: f in Scan(s, cur, inQuotes) ==> '"' !in f
    decreases |s|
  {
    if s != "" {
      if s[0] == '"' {
        QuotesAreDoubled(s[1..], cur, !inQuotes);
      } else if s[0] == ',' && !inQuotes {
        QuotesAreDoubled(s[1..], "", false);
      } else {
        QuotesAreDoubled(s[1..], cur + [s[0]], inQuotes);
      }
    }
  }

  /** For every line: each comma with an even number of quotes before it ends a field; the fields have all characters of
      the line but those commas and quotes, and a quote only where the line has two. */
  lemma FieldsOfEveryLine(line: string)
    ensures var fields := Scan(line, "", false);
            && |fields| == Separators(line, false) + 1
            && Unquoted(JoinedBy(fields, ",")) == Unquoted(line)
            && ((forall i :: 0 <= i < |line| - 1 ==> !(line[i] == '"' && line[i + 1] == '"')) ==>
                  forall f :: f in fields ==> '"' !in f)
  {
    hide Unquoted;
    FieldsAreSeparated(line, "", false);
    FieldsKeepText(line, "", false);
    UnquotedNothing();
    assert "" + Unquoted(line) == Unquoted(line);
    if forall i :: 0 <= i < |line| - 1 ==> !(line[i] == '"' && line[i + 1] == '"') {
      QuotesAreDoubled(line, "", false);
    }
  }

  // ---------- the whole file ----------

  predicate EndsInReturn(line: string)
  {
    line != "" && line[|line| - 1] == '\r'
  }

  function DropCarriageReturn(line: string): string
  {
    if EndsInReturn(line) then line[..|line| - 1] else line
  }

  /** `raw.split(/\r?\n/)` */
  function Lines(raw: string): seq<string>
  {
    Map(ClosedLines(raw), (l: string) => DropCarriageReturn(l)) + [OpenLine(raw)]
  }

  /** The header row and the other rows. */
  function Table(raw: string): seq<seq<string>>
  {
    Map(Filter(Lines(raw), (l: string) => !Blank(l)), (l: string) => Fields(l))
  }

  /** The lines with a line end after each but the last; either kind of line end will do. */
  function Written(lines: seq<string>, crs: seq<bool>): string
    requires |lines| == |crs| + 1
  {
    if crs == [] then lines[0]
    else lines[0] + (if crs[0] then "\r\n" else "\n") + Written(lines[1..], crs[1..])
  }

  /** Lines that survive being written: no newlines, and no carriage return that a line end would swallow. */
  ghost predicate Writable(lines: seq<string>, crs: seq<bool>)
  {
    && |lines| == |crs| + 1
    && (forall l :: l in lines ==> '\n' !in l)
    && (forall i :: 0 <= i < |crs| ==> crs[i] || !EndsInReturn(lines[i]))
  }

  /** Every text is its lines with their line ends, the last line included, however it ends. */
  lemma LinesAreExact(raw: string) returns (crs: seq<bool>)
    ensures Writable(Lines(raw), crs) && Written(Lines(raw), crs) == raw
  {
    hide Lines;
    var pieces := Split(raw, '\n');
    SplitIsExact(raw, '\n');
    crs := EndsOf(pieces);
    LinesOfPieces(raw);
  }

  /** Which of the pieces but the last end in a carriage return. */
  function EndsOf(pieces: seq<string>): seq<bool>
    requires pieces != []
  {
    Map(AllButLast(pieces), (l: string) => EndsInReturn(l))
  }

  function Dropped(pieces: seq<string>): seq<string>
    requires pieces != []
  {
    Map(AllButLast(pieces), (l: string) => DropCarriageReturn(l)) + [Last(pieces)]
  }

  lemma LinesOfPieces(raw: string)
    ensures var pieces := Split(raw, '\n');
            Lines(raw) == Dropped(pieces) && Writable(Dropped(pieces), EndsOf(pieces))
            && Written(Dropped(pieces), EndsOf(pieces)) == raw
  {
    SplitIsExact(raw, '\n');
    PiecesAreWritten(Split(raw, '\n'));
  }

  lemma {:induction false} PiecesAreWritten(pieces: seq<string>)
    requires pieces != [] && forall i :: 0 <= i < |pieces| ==> '\n' !in pieces[i]
    ensures Writable(Dropped(pieces), EndsOf(pieces)) && Written(Dropped(pieces), EndsOf(pieces)) == Join(pieces, '\n')
  {
    if |pieces| > 1 {
      var rest := pieces[1..];
      PiecesAreWritten(rest);
      assert AllButLast(pieces)[1..] == AllButLast(rest);
      assert Dropped(pieces) == [DropCarriageReturn(pieces[0])] + Dropped(rest);
      assert EndsOf(pieces) == [EndsInReturn(pieces[0])] + EndsOf(rest);
      assert EndsInReturn(pieces[0]) ==> pieces[0] == DropCarriageReturn(pieces[0]) + "\r";
      assert "\r" + "\n" == "\r\n";
    }
  }

  lemma LinesFirst(line: string, cr: bool, rest: string)
    requires '\n' !in line && (cr || !EndsInReturn(line))
    ensures Lines(line + (if cr then "\r\n" else "\n") + rest) == [line] + Lines(rest)
  {
    hide Split, Blank, ClosedLines, OpenLine, Map;
    var written := if cr then line + "\r" else line;
    assert line + (if cr then "\r\n" else "\n") + rest == written + "\n" + rest;
    FirstLine(written, rest);
    assert DropCarriageReturn(written) == line;
    var drop := (l: string) => DropCarriageReturn(l);
    MapFirst(written, ClosedLines(rest), drop);
    assert [line] + Map(ClosedLines(rest), drop) + [OpenLine(rest)]
           == [line] + (Map(ClosedLines(rest), drop) + [OpenLine(rest)]);
  }

  lemma OneLine(line: string)
    requires '\n' !in line
    ensures Lines(line) == [line]
  {
    SplitOfLine(line, '\n');
  }

  /** Lines that are written are read back, whether or not the last one has a line end, which is to say that an empty
      line comes after it. */
  lemma {:induction false} WrittenReadsBack(lines: seq<string>, crs: seq<bool>)
    requires Writable(lines, crs)
    ensures Lines(Written(lines, crs)) == lines
    decreases |crs|
  {
    hide Lines, EndsInReturn;
    assert lines[0] in lines;
    if crs == [] {
      OneLine(lines[0]);
      assert lines == [lines[0]];
    } else {
      WrittenReadsBack(lines[1..], crs[1..]);
      LinesFirst(lines[0], crs[0], Written(lines[1..], crs[1..]));
      assert lines == [lines[0]] + lines[1..];
    }
  }

  lemma {:induction false} FilterAll(lines: seq<string>)
    requires forall l :: l in lines ==> !Blank(l)
    ensures Filter(lines, (l: string) => !Blank(l)) == lines
    ensures Filter(lines + [""], (l: string) => !Blank(l)) == lines
  {
    hide Blank;
    if lines == [] {
      assert Blank("") by { NothingIsBlank(); }
      assert [""][1..] == [];
      assert lines + [""] == [""];
    } else {
      assert (lines + [""])[1..] == lines[1..] + [""];
      assert lines[0] in lines;
      FilterAll(lines[1..]);
    }
  }

  lemma NothingIsBlank()
    ensures Blank("")
  {
  }

  /** The printed rows, and an empty line after them when the last one is to have a line end. */
  function PrintedLines(rows: seq<seq<string>>, quotes: seq<seq<bool>>, closed: bool): seq<string>
    requires |quotes| == |rows| && forall i :: 0 <= i < |rows| ==> |quotes[i]| == |rows[i]|
  {
    seq(|rows|, i requires 0 <= i < |rows| => PrintedLine(rows[i], quotes[i])) + if closed then [""] else []
  }

  /** Reading back a printed table gives all its rows, trimmed, for either kind of line end, any quoting, and a last
      row with or without a line end. */
  lemma TableRoundTrip(rows: seq<seq<string>>, quotes: seq<seq<bool>>, closed: bool, crs: seq<bool>)
    requires |quotes| == |rows|
    requires forall i :: 0 <= i < |rows| ==>
             rows[i] != [] && |quotes[i]| == |rows[i]| && !Blank(PrintedLine(rows[i], quotes[i]))
    requires Writable(PrintedLines(rows, quotes, closed), crs)
    ensures Table(Written(PrintedLines(rows, quotes, closed), crs)) == Map(rows, (r: seq<string>) => TrimAll(r))
  {
    hide PrintedLine, Blank, TrimAll, Fields, Lines, Written, Map, Filter, Writable;
    var lines := seq(|rows|, i requires 0 <= i < |rows| => PrintedLine(rows[i], quotes[i]));
    forall l | l in lines ensures !Blank(l) {
      var i :| 0 <= i < |lines| && lines[i] == l;
    }
    WrittenReadsBack(PrintedLines(rows, quotes, closed), crs);
    FilterAll(lines);
    assert lines + [] == lines;
    FieldsOfLines(rows, quotes, lines);
  }

  lemma {:induction false} FieldsOfLines(rows: seq<seq<string>>, quotes: seq<seq<bool>>, lines: seq<string>)
    requires |quotes| == |rows| == |lines|
    requires forall i :: 0 <= i < |rows| ==>
             rows[i] != [] && |quotes[i]| == |rows[i]| && lines[i] == PrintedLine(rows[i], quotes[i])
    ensures Map(lines, (l: string) => Fields(l)) == Map(rows, (r: seq<string>) => TrimAll(r))
  {
    hide PrintedLine, TrimAll, Fields;
    if rows != [] {
      LineRoundTrip(rows[0], quotes[0]);
      FieldsOfLines(rows[1..], quotes[1..], lines[1..]);
    }
  }

  /** `headers.map((h, i) => ...)`: a missing cell is empty, a cell too many is dropped. */
  function Pairs(headers: seq<string>, row: seq<string>): seq<string>
  {
    seq(|headers|, i requires 0 <= i < |headers| => headers[i] + ": " + (if i < |row| then row[i] else ""))
  }

  function RowText(headers: seq<string>, row: seq<string>): string
  {
    "Row: " + JoinedBy(Pairs(headers, row), ". ") + "."
  }

  // ---------- the rendered text ----------

  /** The line shows every header with the cell of the same index, or nothing where the row is too short. */
  ghost predicate ShowsRow(line: string, headers: seq<string>, row: seq<string>)
  {
    exists cells: seq<string> ::
      && |cells| == |headers| && line == "Row: " + JoinedBy(cells, ". ") + "."
      && forall i :: 0 <= i < |cells| ==> cells[i] == headers[i] + ": " + (if i < |row| then row[i] else "")
  }

  /** A line with the headers and one line for each row. */
  ghost predicate ShowsTable(lines: seq<string>, headers: seq<string>, rows: seq<seq<string>>)
  {
    && |lines| == |rows| + 1 && lines[0] == "Headers: " + JoinedBy(headers, ", ")
    && forall k :: 0 <= k < |rows| ==> ShowsRow(lines[k + 1], headers, rows[k])
  }

  ghost predicate OneLiners(texts: seq<string>)
  {
    forall t :: t in texts ==> '\n' !in t
  }

  lemma {:induction false} ScanStaysOnLine(s: string, cur: string, inQuotes: bool)
    requires '\n' !in s && '\n' !in cur
    ensures OneLiners(Scan(s, cur, inQuotes))
    decreases |s|
  {
    if s != "" {
      if s[0] == '"' {
        if inQuotes && |s| > 1 && s[1] == '"' {
          ScanStaysOnLine(s[2..], cur + "\"", true);
        } else {
          ScanStaysOnLine(s[1..], cur, !inQuotes);
        }
      } else if s[0] == ',' && !inQuotes {
        ScanStaysOnLine(s[1..], "", false);
      } else {
        ScanStaysOnLine(s[1..], cur + [s[0]], inQuotes);
      }
    }
  }

  lemma {:induction false} TrimStartIsPart(s: string, c: char)
    requires c in TrimStart(s)
    ensures c in s
  {
    if s != "" && IsSpace(s[0]) {
      TrimStartIsPart(s[1..], c);
    }
  }

  lemma {:induction false} TrimEndIsPart(s: string, c: char)
    requires c in TrimEnd(s)
    ensures c in s
  {
    if s != "" && IsSpace(s[|s| - 1]) {
      TrimEndIsPart(s[..|s| - 1], c);
    }
  }

  lemma FieldsStayOnLine(line: string)
    requires '\n' !in line
    ensures OneLiners(Fields(line))
  {
    ScanStaysOnLine(line, "", false);
    var scanned := Scan(line, "", false);
    forall f | f in Fields(line)
      ensures '\n' !in f
    {
      var i :| 0 <= i < |scanned| && Trim(scanned[i]) == f;
      assert scanned[i] in scanned;
      if '\n' in f {
        TrimEndIsPart(TrimStart(scanned[i]), '\n');
        TrimStartIsPart(scanned[i], '\n');
      }
    }
  }

  lemma {:induction false} JoinedStaysOnLine(parts: seq<string>, glue: string)
    requires OneLiners(parts) && '\n' !in glue
    ensures '\n' !in JoinedBy(parts, glue)
  {
    if parts != [] {
      assert parts[0] in parts;
      JoinedStaysOnLine(parts[1..], glue);
    }
  }

  lemma {:induction false} JoinedByNewline(blocks: seq<string>)
    ensures JoinedBy(blocks, "\n") == Join(blocks, '\n')
  {
    if |blocks| > 1 {
      JoinedByNewline(blocks[1..]);
    }
  }

  /** The rows of a table contain no newline, as they come from single lines. */
  lemma TableStaysOnLines(raw: string, k: nat)
    requires k < |Table(raw)|
    ensures OneLiners(Table(raw)[k])
  {
    hide Fields, Lines, Blank;
    var lines := Filter(Lines(raw), (l: string) => !Blank(l));
    FilterMember(Lines(raw), (l: string) => !Blank(l), lines[k]);
    var crs := LinesAreExact(raw);
    FieldsStayOnLine(lines[k]);
  }

  lemma RowTextShowsRow(headers: seq<string>, row: seq<string>)
    ensures ShowsRow(RowText(headers, row), headers, row)
  {
    var cells := Pairs(headers, row);
    assert RowText(headers, row) == "Row: " + JoinedBy(cells, ". ") + ".";
  }

  lemma RowTextStaysOnLine(headers: seq<string>, row: seq<string>)
    requires OneLiners(headers) && OneLiners(row)
    ensures '\n' !in RowText(headers, row)
  {
    var cells := Pairs(headers, row);
    forall t | t in cells
      ensures '\n' !in t
    {
      var i :| 0 <= i < |cells| && cells[i] == t;
      assert headers[i] in headers;
      assert i < |row| ==> row[i] in row;
    }
    JoinedStaysOnLine(cells, ". ");
  }

  /** The text has a line for the headers and one for each row of the table, blank lines of the file left out. */
  method Extract(raw: string) returns (text: string, headers: seq<string>, rowCount: nat)
    ensures Table(raw) == [] ==> text == "" && headers == [] && rowCount == 0
    ensures Table(raw) != [] ==>
              && headers == Table(raw)[0] && rowCount == |Table(raw)| - 1
              && ShowsTable(Split(text, '\n'), headers, Table(raw)[1..])
  {
    hide Fields, Lines, Blank, JoinedBy, RowText, Filter, Map, Split, ShowsRow, OneLiners;
    var lines := Filter(Lines(raw), (l: string) => !Blank(l));
    if |lines| == 0 {
      return "", [], 0;
    }
    headers := Parse(lines[0]);
    var rows := ParseAll(lines[1..]);
    assert Table(raw) == [headers] + rows;
    assert Table(raw)[1..] == rows;
    TableStaysOnLines(raw, 0);
    var blocks := ["Headers: " + JoinedBy(headers, ", ")];
    HeadersStayOnLine(headers);
    for i := 0 to |rows|
      invariant |blocks| == i + 1 && blocks[0] == "Headers: " + JoinedBy(headers, ", ")
      invariant forall k :: 0 <= k < i ==> ShowsRow(blocks[k + 1], headers, rows[k])
      invariant forall k :: 0 <= k < |blocks| ==> '\n' !in blocks[k]
    {
      TableStaysOnLines(raw, i + 1);
      RowTextShowsRow(headers, rows[i]);
      RowTextStaysOnLine(headers, rows[i]);
      blocks := blocks + [RowText(headers, rows[i])];
    }
    JoinedByNewline(blocks);
    SplitOfJoin(blocks, '\n');
    return JoinedBy(blocks, "\n"), headers, |rows|;
  }

  lemma HeadersStayOnLine(headers: seq<string>)
    requires OneLiners(headers)
    ensures '\n' !in "Headers: " + JoinedBy(headers, ", ")
  {
    JoinedStaysOnLine(headers, ", ");
  }

  /** `lines.map(parse)` */
  method ParseAll(lines: seq<string>) returns (rows: seq<seq<string>>)
    ensures rows == Map(lines, (l: string) => Fields(l))
  {
    hide Fields;
    rows := [];
    for i := 0 to |lines|
      invariant rows == Map(lines[..i], (l: string) => Fields(l))
    {
      var row := Parse(lines[i]);
      assert lines[..i + 1] == lines[..i] + [lines[i]];
      rows := rows + [row];
    }
    assert lines[..|lines|] == lines;
  }
}
