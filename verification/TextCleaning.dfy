/** Cleaning a text before it is cut into pieces. */
module TextCleaning {
  import opened Collections
  import opened EventLines

  /** The characters that are not white space. */
  function Solid(s: string): string
  {
    Filter(s, (c: char) => !IsSpace(c))
  }

  lemma SolidAppend(a: string, b: string)
    ensures Solid(a + b) == Solid(a) + Solid(b)
  {
    FilterAppend(a, b, (c: char) => !IsSpace(c));
  }

  lemma {:induction false} AllSpace(s: string)
    requires forall i :: 0 <= i < |s| ==> IsSpace(s[i])
    ensures Solid(s) == ""
  {
    if s != "" {
      AllSpace(s[1..]);
    }
  }

  /** Replacing white space at the start by other white space keeps the text. */
  lemma SolidSwap(s: string, k: nat, replacement: string)
    requires k <= |s| && (forall i :: 0 <= i < k ==> IsSpace(s[i]))
             && (forall i :: 0 <= i < |replacement| ==> IsSpace(replacement[i]))
    ensures Solid(replacement + s[k..]) == Solid(s) && Solid(s[k..]) == Solid(s)
  {
    assert s == s[..k] + s[k..];
    SolidAppend(s[..k], s[k..]);
    SolidAppend(replacement, s[k..]);
    AllSpace(s[..k]);
    AllSpace(replacement);
    assert "" + Solid(s[k..]) == Solid(s[k..]);
  }

  lemma {:induction false} SolidTrim(s: string)
    ensures Solid(Trim(s)) == Solid(s)
  {
    SolidTrimStart(s);
    SolidTrimEnd(TrimStart(s));
  }

  lemma {:induction false} SolidTrimStart(s: string)
    ensures Solid(TrimStart(s)) == Solid(s)
  {
    if s != "" && IsSpace(s[0]) {
      SolidTrimStart(s[1..]);
    }
  }

  lemma {:induction false} SolidTrimEnd(s: string)
    ensures Solid(TrimEnd(s)) == Solid(s)
  {
    if s != "" && IsSpace(s[|s| - 1]) {
      var n := |s| - 1;
      SolidTrimEnd(s[..n]);
      SolidAppend(s[..n], s[n..]);
      AllSpace(s[n..]);
      assert s == s[..n] + s[n..];
      assert Solid(s[..n]) + "" == Solid(s[..n]);
    }
  }

  /** How many characters at the start of `s` satisfy `p`. */
  function Run(s: string, p: char -> bool): (k: nat)
    ensures k <= |s| && (forall i :: 0 <= i < k ==> p(s[i])) && (k < |s| ==> !p(s[k]))
  {
    if s != "" && p(s[0]) then 1 + Run(s[1..], p) else 0
  }

  predicate IsBlank(c: char)
  {
    c == ' ' || c == '\t'
  }

  predicate IsNewline(c: char)
  {
    c == '\n'
  }

  /** `.replace(/\r\n/g, '\n')` */
  function UnifyNewlines(s: string): string
  {
    if s == "" then ""
    else if StartsWith(s, "\r\n") then "\n" + UnifyNewlines(s[2..])
    else [s[0]] + UnifyNewlines(s[1..])
  }

  /** `.replace(/[ \t]+\n/g, '\n')` */
  function StripLineEnds(s: string): string
    decreases |s|
  {
    var k := Run(s, IsBlank);
    if s == "" then ""
    else if k == 0 then [s[0]] + StripLineEnds(s[1..])
    else if k < |s| && s[k] == '\n' then "\n" + StripLineEnds(s[k + 1..])
    else s[..k] + StripLineEnds(s[k..])
  }

  /** `.replace(/\n{3,}/g, '\n\n')` */
  function LimitNewlines(s: string): string
    decreases |s|
  {
    var k := Run(s, IsNewline);
    if s == "" then ""
    else if k == 0 then [s[0]] + LimitNewlines(s[1..])
    else (if k >= 3 then "\n\n" else s[..k]) + LimitNewlines(s[k..])
  }

  /** `.replace(/[ \t]{2,}/g, ' ')` */
  function LimitBlanks(s: string): string
    decreases |s|
  {
    var k := Run(s, IsBlank);
    if s == "" then ""
    else if k == 0 then [s[0]] + LimitBlanks(s[1..])
    else (if k >= 2 then " " else s[..k]) + LimitBlanks(s[k..])
  }

  function PreClean(s: string): string
  {
    Trim(LimitBlanks(LimitNewlines(StripLineEnds(UnifyNewlines(s)))))
  }

  // ---------- nothing is lost ----------

  lemma SolidFirst(s: string, k: nat, t: string)
    requires k <= |s| && Solid(t) == Solid(s[k..])
    ensures Solid(s[..k] + t) == Solid(s)
  {
    SolidAppend(s[..k], t);
    SolidAppend(s[..k], s[k..]);
    assert s == s[..k] + s[k..];
  }

  lemma SolidReplaced(s: string, k: nat, replacement: string, t: string)
    requires k <= |s| && (forall i :: 0 <= i < k ==> IsSpace(s[i]))
             && (forall i :: 0 <= i < |replacement| ==> IsSpace(replacement[i]))
    requires Solid(t) == Solid(s[k..])
    ensures Solid(replacement + t) == Solid(s)
  {
    SolidSwap(s, k, replacement);
    SolidAppend(replacement, t);
    AllSpace(replacement);
    assert "" + Solid(t) == Solid(t);
  }

  lemma {:induction false} SolidUnify(s: string)
    ensures Solid(UnifyNewlines(s)) == Solid(s)
  {
    hide Solid;
    if s != "" {
      if StartsWith(s, "\r\n") {
        SolidUnify(s[2..]);
        assert s[0] == s[..2][0] && s[1] == s[..2][1];
        SolidReplaced(s, 2, "\n", UnifyNewlines(s[2..]));
      } else {
        SolidUnify(s[1..]);
        SolidFirst(s, 1, UnifyNewlines(s[1..]));
        assert s[..1] == [s[0]];
      }
    }
  }

  lemma {:induction false} SolidStrip(s: string)
    ensures Solid(StripLineEnds(s)) == Solid(s)
    decreases |s|
  {
    hide Solid;
    var k := Run(s, IsBlank);
    if s != "" {
      if k == 0 {
        SolidStrip(s[1..]);
        SolidFirst(s, 1, StripLineEnds(s[1..]));
        assert s[..1] == [s[0]];
      } else if k < |s| && s[k] == '\n' {
        SolidStrip(s[k + 1..]);
        SolidReplaced(s, k + 1, "\n", StripLineEnds(s[k + 1..]));
      } else {
        SolidStrip(s[k..]);
        SolidFirst(s, k, StripLineEnds(s[k..]));
      }
    }
  }

  lemma {:induction false} SolidLimitNewlines(s: string)
    ensures Solid(LimitNewlines(s)) == Solid(s)
    decreases |s|
  {
    hide Solid;
    var k := Run(s, IsNewline);
    if s != "" {
      if k == 0 {
        SolidLimitNewlines(s[1..]);
        SolidFirst(s, 1, LimitNewlines(s[1..]));
        assert s[..1] == [s[0]];
      } else {
        SolidLimitNewlines(s[k..]);
        SolidReplaced(s, k, if k >= 3 then "\n\n" else s[..k], LimitNewlines(s[k..]));
      }
    }
  }

  lemma {:induction false} SolidLimitBlanks(s: string)
    ensures Solid(LimitBlanks(s)) == Solid(s)
    decreases |s|
  {
    hide Solid;
    var k := Run(s, IsBlank);
    if s != "" {
      if k == 0 {
        SolidLimitBlanks(s[1..]);
        SolidFirst(s, 1, LimitBlanks(s[1..]));
        assert s[..1] == [s[0]];
      } else {
        SolidLimitBlanks(s[k..]);
        SolidReplaced(s, k, if k >= 2 then " " else s[..k], LimitBlanks(s[k..]));
      }
    }
  }

  /** Cleaning loses and adds nothing but white space. */
  lemma CleaningKeepsText(s: string)
    ensures Solid(PreClean(s)) == Solid(s)
  {
    hide Solid;
    SolidUnify(s);
    SolidStrip(UnifyNewlines(s));
    SolidLimitNewlines(StripLineEnds(UnifyNewlines(s)));
    SolidLimitBlanks(LimitNewlines(StripLineEnds(UnifyNewlines(s))));
    SolidTrim(LimitBlanks(LimitNewlines(StripLineEnds(UnifyNewlines(s)))));
  }
}
