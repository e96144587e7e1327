/**
 * Recognising an include directive in one specification line and extracting
 * the module's file name from it: the regular expression `^\s*include\s+`,
 * Java's `String.trim`, and the removal of surrounding quotation marks.
 */
module IncludeSyntax {
  import opened Wrappers

  /** `\s` of a Java regular expression: space, tab, newline, vertical tab, form feed, carriage return. */
  predicate IsRegexSpace(ch: char)
  {
    ch == ' ' || ch == '\t' || ch == '\n' || ch == '\U{0B}' || ch == '\U{0C}' || ch == '\r'
  }

  predicate AllRegexSpace(s: string)
  {
    forall k :: 0 <= k < |s| ==> IsRegexSpace(s[k])
  }

  /** The end of the longest run of `\s` characters starting at index i. */
  function SpaceRunEnd(s: string, i: nat): (j: nat)
    requires i <= |s|
    ensures i <= j <= |s| && AllRegexSpace(s[i..j])
    ensures j == |s| || !IsRegexSpace(s[j])
    decreases |s| - i
  {
    if i == |s| || !IsRegexSpace(s[i]) then i else SpaceRunEnd(s, i + 1)
  }

  const Keyword: string := "include"

  /**
   * `^\s*include\s+`, as `Matcher.find` applies it: the length of the matched
   * prefix, if the line starts with one. Both runs of `\s` are greedy, so the
   * match ends at the first character after the keyword that is not `\s`.
   */
  function IncludePrefix(text: string): (r: Option<nat>)
    ensures r.Some? ==>
              var a := SpaceRunEnd(text, 0);
              a + |Keyword| < r.value <= |text| &&
              AllRegexSpace(text[..a]) && text[a..a + |Keyword|] == Keyword &&
              AllRegexSpace(text[a + |Keyword|..r.value]) &&
              (r.value == |text| || !IsRegexSpace(text[r.value]))
  {
    var a := SpaceRunEnd(text, 0);
    if a + |Keyword| < |text| && text[a..a + |Keyword|] == Keyword && IsRegexSpace(text[a + |Keyword|]) then
      Some(SpaceRunEnd(text, a + |Keyword|))
    else None
  }

  /** Every line of the form `\s*include\s+...` is recognised. */
  lemma IncludePrefixComplete(lead: string, gap: string, rest: string)
    requires AllRegexSpace(lead) && AllRegexSpace(gap) && |gap| > 0
    ensures IncludePrefix(lead + Keyword + gap + rest).Some?
  {
    var text := lead + Keyword + gap + rest;
    assert SpaceRunEnd(text, 0) == |lead| by {
      SpaceRunEndPast(text, 0, |lead|);
      assert text[|lead|] == 'i';
    }
    assert text[|lead|..|lead| + |Keyword|] == Keyword;
    assert text[|lead| + |Keyword|] == gap[0];
  }

  /** The longest run from i reaches at least as far as any run of `\s` from i. */
  lemma {:induction false} SpaceRunEndPast(s: string, i: nat, j: nat)
    requires i <= j <= |s| && AllRegexSpace(s[i..j])
    ensures j <= SpaceRunEnd(s, i)
    decreases j - i
  {
    if i < j {
      assert IsRegexSpace(s[i..j][0]);
      assert s[i + 1..j] == s[i..j][1..];
      SpaceRunEndPast(s, i + 1, j);
    }
  }

  /** Lines that do not start with `\s*include` followed by `\s` are not recognised. */
  lemma IncludePrefixSound(text: string)
    requires IncludePrefix(text).Some?
    ensures exists lead, gap, rest :: AllRegexSpace(lead) && AllRegexSpace(gap) && |gap| > 0 &&
                                       text == lead + Keyword + gap + rest
  {
    var a := SpaceRunEnd(text, 0);
    var e := IncludePrefix(text).value;
    var lead, gap, rest := text[..a], text[a + |Keyword|..e], text[e..];
    assert text == lead + Keyword + gap + rest;
  }

  /** Java's `String.trim`: the characters up to U+0020 are dropped from both ends. */
  function TrimStart(s: string): (i: nat)
    ensures i <= |s| && (forall k :: 0 <= k < i ==> s[k] <= ' ') && (i == |s| || s[i] > ' ')
    decreases |s|
  {
    if |s| == 0 || s[0] > ' ' then 0 else 1 + TrimStart(s[1..])
  }

  function TrimEnd(s: string): (j: nat)
    ensures j <= |s| && (forall k :: j <= k < |s| ==> s[k] <= ' ') && (j == 0 || s[j - 1] > ' ')
    decreases |s|
  {
    if |s| == 0 || s[|s| - 1] > ' ' then |s| else TrimEnd(s[..|s| - 1])
  }

  function Trim(s: string): (r: string)
    ensures TrimStart(s) + |r| <= |s|
    ensures |r| > 0 ==> r[0] > ' ' && r[|r| - 1] > ' '
    ensures forall k :: 0 <= k < |r| ==> r[k] == s[TrimStart(s) + k]
    ensures forall k :: 0 <= k < |s| && (k < TrimStart(s) || k >= TrimStart(s) + |r|) ==> s[k] <= ' '
  {
    var i, j := TrimStart(s), TrimEnd(s);
    if i < j then s[i..j] else []
  }

  predicate Quoted(s: string)
  {
    |s| >= 1 && s[0] == '"' && s[|s| - 1] == '"'
  }

  /**
   * The quote-removal loop as the source writes it: while the name starts and
   * ends with a quotation mark, `substring(1, length - 1)`. On a name that is a
   * single quotation mark that call throws (begin index 1 exceeds end index 0),
   * which `None` stands for.
   */
  function StripQuotesAsWritten(s: string): Option<string>
    decreases |s|
  {
    if Quoted(s) then
      if |s| < 2 then None
      else StripQuotesAsWritten(s[1..|s| - 1])
    else Some(s)
  }

  /** The source's loop throws exactly on names made of an odd number of quotation marks only. */
  lemma {:induction false} StripQuotesAsWrittenFails(s: string)
    ensures StripQuotesAsWritten(s).None? <==> (|s| % 2 == 1 && forall k :: 0 <= k < |s| ==> s[k] == '"')
    decreases |s|
  {
    if Quoted(s) && |s| >= 2 {
      var inner := s[1..|s| - 1];
      StripQuotesAsWrittenFails(inner);
      if forall k :: 0 <= k < |inner| ==> inner[k] == '"' {
        forall k | 0 <= k < |s|
          ensures s[k] == '"'
        {
          if 0 < k < |s| - 1 {
            assert s[k] == inner[k - 1];
          }
        }
      }
    }
  }

  /**
   * The quote removal as evidently intended: it stops once fewer than two
   * characters are left, so a lone quotation mark stays as it is.
   */
  function Unquote(s: string): (r: string)
    ensures |r| <= |s| && !(|r| >= 2 && Quoted(r))
    decreases |s|
  {
    if |s| >= 2 && Quoted(s) then Unquote(s[1..|s| - 1]) else s
  }

  /**
   * `Unquote` removes the same number d of characters from both ends, and all
   * of them are quotation marks.
   */
  lemma {:induction false} UnquoteRemovesQuotePairs(s: string)
    ensures var r := Unquote(s); var d := (|s| - |r|) / 2;
            (|s| - |r|) % 2 == 0 && r == s[d..|s| - d] &&
            (forall k :: 0 <= k < d ==> s[k] == '"') &&
            (forall k :: |s| - d <= k < |s| ==> s[k] == '"')
    decreases |s|
  {
    if |s| >= 2 && Quoted(s) {
      var inner := s[1..|s| - 1];
      UnquoteRemovesQuotePairs(inner);
      var r := Unquote(inner);
      var d := (|inner| - |r|) / 2;
      QuotePairAround(s, r, d);
      assert Unquote(s) == r && (|s| - |r|) / 2 == d + 1;
    }
  }

  /** Putting one more pair of quotation marks around a string taken d from each end. */
  lemma {:induction false} QuotePairAround(s: string, r: string, d: nat)
    requires |s| >= 2 && Quoted(s)
    requires var inner := s[1..|s| - 1];
             |inner| - |r| == 2 * d && r == inner[d..|inner| - d] &&
             (forall k :: 0 <= k < d ==> inner[k] == '"') &&
             (forall k :: |inner| - d <= k < |inner| ==> inner[k] == '"')
    ensures |s| - |r| == 2 * (d + 1) && r == s[d + 1..|s| - (d + 1)]
    ensures forall k :: 0 <= k < d + 1 ==> s[k] == '"'
    ensures forall k :: |s| - (d + 1) <= k < |s| ==> s[k] == '"'
  {
    var inner := s[1..|s| - 1];
    assert forall k :: 0 <= k < |r| ==> r[k] == inner[d + k] == s[d + 1 + k];
    forall k | 0 < k < d + 1
      ensures s[k] == '"'
    {
      assert s[k] == inner[k - 1];
    }
    forall k | |s| - (d + 1) <= k < |s| - 1
      ensures s[k] == '"'
    {
      assert s[k] == inner[k - 1];
    }
  }

  /** Wherever the source's loop does not throw, it computes what `Unquote` computes. */
  lemma {:induction false} StripQuotesAsWrittenAgrees(s: string)
    requires StripQuotesAsWritten(s).Some?
    ensures StripQuotesAsWritten(s).value == Unquote(s)
    decreases |s|
  {
    if Quoted(s) && |s| >= 2 {
      StripQuotesAsWrittenAgrees(s[1..|s| - 1]);
    }
  }

  /** The quote-removal loop, stopping before it would take apart a lone quotation mark. */
  method StripQuotes(s: string) returns (r: string)
    ensures r == Unquote(s)
  {
    r := s;
    while |r| >= 2 && r[0] == '"' && r[|r| - 1] == '"'
      invariant Unquote(r) == Unquote(s)
      decreases |r|
    {
      r := r[1..|r| - 1];
    }
  }

  /** The module file name an include line names; `None` for a line that is no include directive. */
  function IncludeTarget(text: string): Option<string>
  {
    match IncludePrefix(text)
    case None => None
    case Some(e) => Some(Unquote(Trim(text[e..])))
  }

  /**
   * On a line `\s*include\s+rest` whose rest does not start with `\s`, the
   * named module is the rest, trimmed and without its surrounding quotes.
   */
  lemma IncludeTargetOf(lead: string, gap: string, rest: string)
    requires AllRegexSpace(lead) && AllRegexSpace(gap) && |gap| > 0
    requires |rest| == 0 || !IsRegexSpace(rest[0])
    ensures IncludeTarget(lead + Keyword + gap + rest) == Some(Unquote(Trim(rest)))
  {
    var text := lead + Keyword + gap + rest;
    IncludePrefixComplete(lead, gap, rest);
    var a := |lead|;
    assert SpaceRunEnd(text, 0) == a by {
      SpaceRunEndPast(text, 0, a);
      assert text[a] == 'i';
    }
    var e := a + |Keyword| + |gap|;
    assert SpaceRunEnd(text, a + |Keyword|) == e by {
      assert text[a + |Keyword|..e] == gap;
      SpaceRunEndPast(text, a + |Keyword|, e);
      if e < |text| {
        assert text[e] == rest[0];
      }
    }
    assert text[e..] == rest;
  }

  /** A name in quotation marks loses exactly those, when it does not itself start with one. */
  lemma TrimUnquoteQuoted(name: string)
    requires |name| == 0 || name[0] != '"'
    ensures Unquote(Trim("\"" + name + "\"")) == name
  {
    var quoted := "\"" + name + "\"";
    assert TrimStart(quoted) == 0;
    assert TrimEnd(quoted) == |quoted|;
    assert Trim(quoted) == quoted;
    assert quoted[1..|quoted| - 1] == name;
    assert Unquote(quoted) == Unquote(name);
  }

  /** `include "name"` names `name`, when the name does not itself start with a quotation mark. */
  lemma QuotedTarget(lead: string, gap: string, name: string)
    requires AllRegexSpace(lead) && AllRegexSpace(gap) && |gap| > 0
    requires |name| == 0 || name[0] != '"'
    ensures IncludeTarget(lead + Keyword + gap + ("\"" + name + "\"")) == Some(name)
  {
    IncludeTargetOf(lead, gap, "\"" + name + "\"");
    TrimUnquoteQuoted(name);
  }

  /** A keyword that runs on into the name is no include directive. */
  lemma RunOnKeywordExample()
    ensures IncludeTarget("includes lib") == None
  {
    var t := "includes lib";
    assert SpaceRunEnd(t, 0) == 0;
    assert !IsRegexSpace(t[7]);
  }

  /**
   * The line `include "` passes the pattern and leaves the name `"`, on which
   * the source's loop throws; the intended removal leaves `"` as the name.
   */
  lemma LoneQuoteLine()
    ensures IncludeTarget("include \"") == Some(Unquote(Trim("\"")))
    ensures Trim("\"") == "\"" && Unquote("\"") == "\""
    ensures StripQuotesAsWritten(Trim("\"")) == None
  {
    assert "include \"" == "" + Keyword + " " + "\"";
    IncludeTargetOf("", " ", "\"");
    assert TrimStart("\"") == 0 && TrimEnd("\"") == 1;
  }
}
