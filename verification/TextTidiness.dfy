/** What cleaning a text is for: which runs of white space are left. */
module TextTidiness {
  import opened EventLines
  import opened TextCleaning

  predicate Starts(s: string, c: char)
  {
    s != "" && s[0] == c
  }

  ghost predicate NoBlankBeforeNewline(s: string)
  {
    forall i :: 0 <= i < |s| - 1 ==> !((s[i] == ' ' || s[i] == '\t') && s[i + 1] == '\n')
  }

  ghost predicate NoEmptyLines(s: string)
  {
    forall i :: 0 <= i < |s| - 2 ==> !(s[i] == '\n' && s[i + 1] == '\n' && s[i + 2] == '\n')
  }

  ghost predicate NoTwoBlanks(s: string)
  {
    forall i :: 0 <= i < |s| - 1 ==> !((s[i] == ' ' || s[i] == '\t') && (s[i + 1] == ' ' || s[i + 1] == '\t'))
  }

  lemma {:induction false} StripTidies(s: string)
    ensures NoBlankBeforeNewline(StripLineEnds(s))
    ensures s != "" && !IsBlank(s[0]) ==> Starts(StripLineEnds(s), s[0])
    decreases |s|
  {
    var k := Run(s, IsBlank);
    if s != "" {
      if k == 0 {
        StripTidies(s[1..]);
      } else if k < |s| && s[k] == '\n' {
        StripTidies(s[k + 1..]);
      } else {
        StripTidies(s[k..]);
      }
    }
  }

  lemma ConsTidies(c: char, r: string)
    requires NoBlankBeforeNewline(r) && !(IsBlank(c) && Starts(r, '\n'))
    ensures NoBlankBeforeNewline([c] + r)
    ensures NoEmptyLines(r) && !(c == '\n' && |r| > 1 && r[0] == '\n' && r[1] == '\n') ==> NoEmptyLines([c] + r)
    ensures NoTwoBlanks(r) && !(IsBlank(c) && r != "" && IsBlank(r[0])) ==> NoTwoBlanks([c] + r)
  {
    var s := [c] + r;
    assert forall i :: 0 < i < |s| ==> s[i] == r[i - 1];
  }

  lemma NewlinesLimited(s: string, k: nat, rest: string)
    requires k == Run(s, IsNewline) > 0 && rest == LimitNewlines(s[k..])
    ensures LimitNewlines(s) == if k == 1 then ['\n'] + rest else ['\n'] + (['\n'] + rest)
  {
    if k == 1 {
      assert s[..k] == ['\n'];
    } else if k == 2 {
      assert s[..k] == ['\n', '\n'];
    }
    assert ['\n', '\n'] + rest == ['\n'] + (['\n'] + rest);
  }

  /** What is kept of a text, with its first character unchanged. */
  ghost predicate LimitedTo(s: string, r: string)
  {
    && NoBlankBeforeNewline(r) && NoEmptyLines(r)
    && (s != "" ==> Starts(r, s[0])) && (s == "" ==> r == "")
  }

  lemma LimitedFirst(s: string, r: string)
    requires s != "" && NoBlankBeforeNewline(s) && s[0] != '\n' && LimitedTo(s[1..], r)
    ensures LimitedTo(s, [s[0]] + r)
  {
    hide NoBlankBeforeNewline, NoEmptyLines;
    BlankThenNotNewline(s, 0);
    ConsTidies(s[0], r);
  }

  lemma LimitedRun(s: string, k: nat, r: string)
    requires k == Run(s, IsNewline) > 0 && LimitedTo(s[k..], r)
    ensures LimitedTo(s, ['\n'] + r) && LimitedTo(s, ['\n'] + (['\n'] + r))
  {
    hide NoBlankBeforeNewline, NoEmptyLines;
    ConsTidies('\n', r);
    ConsTidies('\n', ['\n'] + r);
  }

  lemma {:induction false} LimitNewlinesTidies(s: string)
    requires NoBlankBeforeNewline(s)
    ensures LimitedTo(s, LimitNewlines(s))
    decreases |s|
  {
    hide NoBlankBeforeNewline, NoEmptyLines, LimitedTo, Starts;
    var k := Run(s, IsNewline);
    if s == "" {
      NothingIsLimited();
    } else if k == 0 {
      SuffixIsTidy(s, 1);
      LimitNewlinesTidies(s[1..]);
      LimitedFirst(s, LimitNewlines(s[1..]));
    } else {
      SuffixIsTidy(s, k);
      LimitNewlinesTidies(s[k..]);
      LimitedRun(s, k, LimitNewlines(s[k..]));
      NewlinesLimited(s, k, LimitNewlines(s[k..]));
    }
  }

  lemma NothingIsLimited()
    ensures LimitedTo("", "")
  {
  }

  lemma BlankThenNotNewline(s: string, i: nat)
    requires NoBlankBeforeNewline(s) && i < |s|
    ensures IsBlank(s[i]) && i + 1 < |s| ==> s[i + 1] != '\n'
  {
  }

  lemma NotThreeNewlines(s: string)
    requires NoEmptyLines(s)
    ensures |s| > 2 ==> !(s[0] == '\n' && s[1] == '\n' && s[2] == '\n')
  {
  }

  lemma NothingIsTidy()
    ensures NoBlankBeforeNewline("") && NoEmptyLines("") && NoTwoBlanks("")
  {
  }

  lemma {:induction false} LimitBlanksTidies(s: string)
    requires NoBlankBeforeNewline(s) && NoEmptyLines(s)
    ensures var r := LimitBlanks(s);
            && NoBlankBeforeNewline(r) && NoEmptyLines(r) && NoTwoBlanks(r)
            && (s != "" ==> r != "" && (if IsBlank(s[0]) then IsBlank(r[0]) else r[0] == s[0])) && (s == "" ==> r == "")
            && (|r| > 1 && r[0] == '\n' && r[1] == '\n' ==> |s| > 1 && s[0] == '\n' && s[1] == '\n')
    decreases |s|
  {
    hide NoBlankBeforeNewline, NoEmptyLines, NoTwoBlanks;
    var k := Run(s, IsBlank);
    if s == "" {
      NothingIsTidy();
    } else if k == 0 {
      SuffixIsTidy(s, 1);
      NotThreeNewlines(s);
      LimitBlanksTidies(s[1..]);
      ConsTidies(s[0], LimitBlanks(s[1..]));
    } else {
      SuffixIsTidy(s, k);
      BlankThenNotNewline(s, k - 1);
      LimitBlanksTidies(s[k..]);
      ConsTidies(if k >= 2 then ' ' else s[0], LimitBlanks(s[k..]));
      assert k == 1 ==> s[..k] == [s[0]];
    }
  }

  lemma {:induction false} TrimEndIsPrefix(s: string)
    ensures |TrimEnd(s)| <= |s| && TrimEnd(s) == s[..|TrimEnd(s)|]
  {
    if s != "" && IsSpace(s[|s| - 1]) {
      TrimEndIsPrefix(s[..|s| - 1]);
    }
  }

  lemma {:induction false} TrimStartIsSuffix(s: string)
    ensures |TrimStart(s)| <= |s| && TrimStart(s) == s[|s| - |TrimStart(s)|..]
  {
    if s != "" && IsSpace(s[0]) {
      TrimStartIsSuffix(s[1..]);
    }
  }

  lemma SuffixIsTidy(s: string, k: nat)
    requires k <= |s|
    ensures NoBlankBeforeNewline(s) ==> NoBlankBeforeNewline(s[k..])
    ensures NoEmptyLines(s) ==> NoEmptyLines(s[k..])
    ensures NoTwoBlanks(s) ==> NoTwoBlanks(s[k..])
  {
  }

  lemma PrefixIsTidy(s: string, k: nat)
    requires k <= |s|
    ensures NoBlankBeforeNewline(s) ==> NoBlankBeforeNewline(s[..k])
    ensures NoEmptyLines(s) ==> NoEmptyLines(s[..k])
    ensures NoTwoBlanks(s) ==> NoTwoBlanks(s[..k])
  {
  }

  /** A cleaned text has no blank before a newline, no two blanks and no three newlines in a row. */
  lemma CleanTextIsTidy(s: string)
    ensures var r := PreClean(s); NoBlankBeforeNewline(r) && NoEmptyLines(r) && NoTwoBlanks(r)
  {
    hide UnifyNewlines, StripLineEnds, LimitNewlines, LimitBlanks, TrimStart, TrimEnd;
    hide NoBlankBeforeNewline, NoEmptyLines, NoTwoBlanks;
    var a := StripLineEnds(UnifyNewlines(s));
    StripTidies(UnifyNewlines(s));
    LimitNewlinesTidies(a);
    LimitBlanksTidies(LimitNewlines(a));
    var b := LimitBlanks(LimitNewlines(a));
    TrimStartIsSuffix(b);
    TrimEndIsPrefix(TrimStart(b));
    SuffixIsTidy(b, |b| - |TrimStart(b)|);
    PrefixIsTidy(TrimStart(b), |Trim(b)|);
  }

  // ---------- nothing else is changed ----------

  ghost predicate NoCrLf(s: string)
  {
    forall i :: 0 <= i < |s| - 1 ==> !(s[i] == '\r' && s[i + 1] == '\n')
  }

  lemma {:induction false} UnifyLeaves(s: string)
    requires NoCrLf(s)
    ensures UnifyNewlines(s) == s
  {
    if s != "" {
      UnifyLeaves(s[1..]);
      if |s| > 1 {
        assert s[..2] == [s[0]] + [s[1]];
      }
    }
  }

  lemma {:induction false} StripLeaves(s: string)
    requires NoBlankBeforeNewline(s)
    ensures StripLineEnds(s) == s
    decreases |s|
  {
    var k := Run(s, IsBlank);
    if s != "" {
      if k == 0 {
        StripLeaves(s[1..]);
      } else {
        assert k < |s| ==> IsBlank(s[k - 1]) && s[k] != '\n';
        StripLeaves(s[k..]);
        assert s[..k] + s[k..] == s;
      }
    }
  }

  lemma {:induction false} LimitNewlinesLeaves(s: string)
    requires NoEmptyLines(s)
    ensures LimitNewlines(s) == s
    decreases |s|
  {
    var k := Run(s, IsNewline);
    if s != "" {
      if k == 0 {
        LimitNewlinesLeaves(s[1..]);
      } else {
        NotThreeNewlines(s);
        LimitNewlinesLeaves(s[k..]);
        assert s[..k] + s[k..] == s;
      }
    }
  }

  lemma NotTwoBlanks(s: string)
    requires NoTwoBlanks(s)
    ensures |s| > 1 ==> !(IsBlank(s[0]) && IsBlank(s[1]))
  {
  }

  lemma {:induction false} LimitBlanksLeaves(s: string)
    requires NoTwoBlanks(s)
    ensures LimitBlanks(s) == s
    decreases |s|
  {
    var k := Run(s, IsBlank);
    if s != "" {
      if k == 0 {
        LimitBlanksLeaves(s[1..]);
      } else {
        NotTwoBlanks(s);
        LimitBlanksLeaves(s[k..]);
        assert s[..k] + s[k..] == s;
      }
    }
  }

  /** A text that is tidy and trimmed, with plain newlines, is not changed. */
  lemma TidyTextIsUnchanged(s: string)
    requires NoCrLf(s) && NoBlankBeforeNewline(s) && NoEmptyLines(s) && NoTwoBlanks(s) && Trimmed(s)
    ensures PreClean(s) == s
  {
    hide UnifyNewlines, StripLineEnds, LimitNewlines, LimitBlanks, NoCrLf, NoBlankBeforeNewline, NoEmptyLines,
         NoTwoBlanks;
    UnifyLeaves(s);
    StripLeaves(s);
    LimitNewlinesLeaves(s);
    LimitBlanksLeaves(s);
    assert TrimStart(s) == s && TrimEnd(s) == s;
  }
}
