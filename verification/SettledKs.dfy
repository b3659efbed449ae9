/** A file stays steady when it is refreshed, and what its kernelopt lines hold once a
    kickstart is activated. */
module SettledKs {
  import opened Text
  import opened Lines
  import opened ConfigLine
  import opened Kernelopt
  import opened KerneloptTwice
  import opened Kickstart
  import opened KickstartLaws
  import opened NetworkLaws
  import opened CommuteOption
  import opened Modules
  import opened Refresh
  import opened RefreshLaws
  import opened RefreshText
  import opened CommuteLine
  import opened CommuteFile

  // ---- A refreshed file is steady ---------------------------------------

  lemma SettledTokensSteady(ts: seq<string>)
    requires AreSmooth(ts) && NoneMention(ts) && NoneMoves(ts)
    ensures AreSteady(ts)
  {
    hide IsSmooth, MentionsCdrom, LowerToken, IsRunweasel, IsCdrom;
    forall i | 0 <= i < |ts| ensures IsSteady(ts[i]) {
      assert IsSmooth(ts[i]) && !MentionsCdrom(ts[i]) && LowerToken(ts[i]) == ts[i];
    }
  }

  /** The value one pass writes is steady when the value it was given settles. */
  lemma NormalizedSteady(kopt: string)
    requires SmoothOption(kopt) && SettledOption(kopt)
    ensures SteadyOption(Normalize(kopt))
  {
    var ts := NetworkTokens(kopt);
    hide Tokens, WithoutCdrom, AreSettled, WithRunweasel, NetworkTokens, AreTokens, AreSmooth,
         NonEmpty, LowerTokens, NoneMention, NoneMoves, AreSteady, HasRunweasel;
    NormalizeParts(kopt);
    NetworkTokensSmooth(kopt);
    FirstPass(Tokens(WithoutCdrom(kopt)));
    SettledIsSmooth(ts);
    WithoutIsClean(Normalize(kopt));
    TokensMention(WithoutCdrom(Normalize(kopt)));
    AllUnmentioned(ts);
    SettledTokensSteady(ts);
    TokensOfJoin(ts);
  }

  lemma AllUnmentioned(ts: seq<string>)
    requires forall i :: 0 <= i < |ts| ==> !MentionsCdrom(ts[i])
    ensures NoneMention(ts)
  {
  }

  lemma SteadyOptionSmooth(kopt: string)
    requires SteadyOption(kopt)
    ensures SmoothOption(kopt)
  {
    hide Tokens, WithoutCdrom, AreSteady, AreSmooth;
    WithoutTokens(kopt);
    DropSmooth(Tokens(kopt));
  }

  lemma RefreshedSteadyLine(line: string, base: string)
    requires SteadyLine(line) && LineSettled(line)
    ensures SteadyLine(RefreshLine(line, base))
  {
    hide NormalizeLine, MatchesIndented, ValueOf, Normalize, SettledPaths, SteadyOption, SettledOption,
         SmoothOption, Bared, IsBlank, Strip;
    var r := RefreshLine(line, base);
    NormalizedKey(line);
    RefreshKeepsKey(line, base);
    OneKey(line);
    if IsPrefix(line) {
      WrittenPrefixSteady(base);
    } else if IsKernelopt(line) {
      var v := ValueOf(line);
      KeyLineNormal(KERNELOPT, line);
      SteadyOptionSmooth(v);
      NormalizedSteady(v);
      WrittenOption(Normalize(v));
      NormalizeIsTrimmed(v);
      WrittenSteady(Normalize(v));
    } else {
      NormalizeAgain(line);
      NormalizeAgain(NormalizeLine(line));
      NormalizedNotBare(line);
    }
  }

  lemma WrittenPrefixSteady(base: string)
    ensures SteadyLine("prefix=" + base)
  {
    hide NormalizeLine, MatchesIndented, ValueOf, SettledPaths, SteadyOption, Bared, IsBlank;
    WrittenPrefix(base);
    NormalizedKey("prefix=" + base);
    OneKey("prefix=" + base);
    PrefixNotBare("prefix=" + base);
  }

  lemma PrefixNotBare(line: string)
    requires IsPrefix(line)
    ensures Bared(line) != ""
  {
    hide MatchesIndented, Bared, NormalizeLine, IsBlank;
    if MatchesIndented(PREFIX, line) { KeyLineNormal(PREFIX, line); }
    if MatchesIndented(PREFIX_HTTP, line) { KeyLineNormal(PREFIX_HTTP, line); }
  }

  /** The normaliser leaves no line of byte order marks behind. */
  lemma NormalizedNotBare(line: string)
    ensures Bared(NormalizeLine(line)) == "" ==> IsBlank(NormalizeLine(line))
  {
    Names();
    NamesStart();
    EmptyIsBlank();
    var s := Bared(line);
    hide Bared, Matches, ValueOf, LowerRel, Segments, IsComment, JoinModules, IsName, IsBlank, RightTrimmed;
    assert KERNEL + "=" == "kernel=" && MODULES + "=" == "modules=" && MODULE + "=" == "module=";
    WrittenBared(KERNEL, LowerRel(ValueOf(s)));
    WrittenBared(MODULES, JoinModules(LowerPaths(Segments(ValueOf(s)))));
    WrittenBared(MODULE, LowerRel(ValueOf(s)));
    WrittenBared(MODULE, "");
    assert "module=" + "" == "module=";
  }

  lemma NamesStart()
    ensures KERNEL[0] == 'k' && MODULES[0] == 'm' && MODULE[0] == 'm'
  {
  }

  lemma EmptyIsBlank()
    ensures IsBlank("")
  {
  }

  /** A steady and settled file stays steady when it is refreshed. */
  lemma RefreshedSteady(text: string, base: string)
    requires SteadyFile(text) && FileSettles(text) && OneLine(base)
    ensures SteadyFile(Refreshed(text, base))
  {
    var lines := SplitLines(text);
    hide All, SplitLines, RefreshLines, Refreshed, NoBreaks, SteadyLines, AllLinesSettled, Unlines;
    RefreshedLines(text, base);
    RefreshedSteadyLines(lines, base);
    UnlinesNotEmpty(RefreshLines(lines, base));
  }

  lemma UnlinesNotEmpty(lines: seq<string>)
    ensures Unlines(lines) != ""
  {
    hide Join;
    assert |Unlines(lines)| > 0;
  }

  lemma RefreshedSteadyLines(lines: seq<string>, base: string)
    requires lines != [] && SteadyLines(lines) && AllLinesSettled(lines)
    ensures SteadyLines(RefreshLines(lines, base))
  {
    var low := MapLines(RefreshLineOf(base), lines);
    hide AnyPrefix, RefreshLines, RefreshLine, SteadyLine, LineSettled, LeadingComments;
    RefreshArranged(lines, base);
    forall i | 0 <= i < |low| ensures SteadyLine(low[i]) {
      assert SteadyLine(lines[i]) && LineSettled(lines[i]);
      RefreshedSteadyLine(lines[i], base);
    }
    WrittenPrefixSteady(base);
    ArrangedParts(low, base);
  }

  // ---- Tokens of the written lines --------------------------------------

  /** The `ks=` tokens of a kernelopt value, in order. */
  function KsOf(ts: seq<string>): seq<string> {
    if ts == [] then [] else (if IsKs(ts[0]) then [ts[0]] else []) + KsOf(ts[1..])
  }

  lemma {:induction false} KsOfNone(ts: seq<string>)
    requires NoneDropped(ts)
    ensures KsOf(ts) == []
  {
    if ts != [] {
      assert !IsDropped(ts[0]) && NoneDropped(ts[1..]);
      hide IsKs, IsCdrom;
      KsOfNone(ts[1..]);
    }
  }

  lemma {:induction false} KsOfAppend(ts: seq<string>, t: string)
    ensures KsOf(ts + [t]) == KsOf(ts) + if IsKs(t) then [t] else []
  {
    hide IsKs;
    if ts == [] {
      assert ts + [t] == [t] && [t][1..] == [];
    } else {
      assert (ts + [t])[0] == ts[0] && (ts + [t])[1..] == ts[1..] + [t];
      KsOfAppend(ts[1..], t);
    }
  }

  /** An activated value holds one `ks=` token, the URL's; a cleared one holds none. */
  lemma KsOfMerge(kopt: string, ks: string)
    requires NoSpaceIn(ks)
    ensures KsOf(Tokens(Merge(kopt, ks))) == KsTokens(ks)
  {
    hide Tokens, Stable, NoneDropped, AreTokens, HasRunweasel, All, Merge, KsOf, IsKs;
    TokensOfMerge(kopt, ks);
    StableIsKept(kopt);
    KsOfNone(Stable(kopt));
    if ks == "" {
      assert Stable(kopt) + [] == Stable(kopt);
    } else {
      KsTokenDropped(ks);
      KsTokenIsKs(ks);
      KsOfAppend(Stable(kopt), "ks=" + ks);
      assert KsOf(Stable(kopt)) + ["ks=" + ks] == ["ks=" + ks];
    }
  }

  lemma KsTokenIsKs(ks: string)
    ensures IsKs("ks=" + ks)
  {
    assert Lower("ks=" + ks)[..3] == "ks=";
  }

  /** Every kernelopt line of the written file carries exactly the activated URL, and
      there is such a line. */
  lemma ActivatedTokens(text: string, ks: string)
    requires NoSpaceIn(ks) && OneLine(ks)
    ensures AnyKernelopt(SplitLines(WithKs(text, ks)))
    ensures forall line :: line in SplitLines(WithKs(text, ks)) && IsKernelopt(line) ==>
              KsOf(Tokens(ValueOf(line))) == KsTokens(ks)
  {
    var lines := SplitLines(text);
    var out := KsLines(lines, ks);
    hide All, SplitLines, Tokens, KsOf, TrimEnd, RightTrimmed, Merge, IsKernelopt, ValueOf, WithKs,
         KsTokens, NoBreaks;
    ReadBack(text, ks);
    TrimmedHasKernelopt(lines, ks);
    forall i | 0 <= i < |out| && IsKernelopt(out[i])
      ensures KsOf(Tokens(ValueOf(out[i]))) == KsTokens(ks)
    {
      var kopt := if i < |lines| then ValueOf(lines[i]) else "";
      assert out[i] == "kernelopt=" + Merge(kopt, ks);
      WrittenKernelopt(Merge(kopt, ks));
      MergeIsTrimmed(kopt, ks);
      KsOfMerge(kopt, ks);
    }
    var cut := TrimEnd(out);
    forall i | 0 <= i < |cut| && IsKernelopt(cut[i])
      ensures KsOf(Tokens(ValueOf(cut[i]))) == KsTokens(ks)
    {
      TrimEndAt(out, i);
      PrefixRightTrimmed(out[i]);
    }
  }
}
