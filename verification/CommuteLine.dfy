/** One line of a boot.cfg under kickstart activation and under the menu refresh. */
module CommuteLine {
  import opened Text
  import opened Lines
  import opened ConfigLine
  import opened Kernelopt
  import opened Kickstart
  import opened KickstartLaws
  import opened CommuteOption
  import opened Modules
  import opened Refresh
  import opened RefreshLaws
  import opened RefreshText

  /** A line both rewrites treat alike: its paths settle, it is not just byte order marks,
      and the tokens of its kernelopt value, if any, are steady. */
  predicate SteadyLine(line: string) {
    && SettledPaths(line)
    && (Bared(line) == "" ==> IsBlank(line))
    && (IsKernelopt(line) ==> SteadyOption(ValueOf(line)))
  }

  /** The refresh keeps the kind of every line. */
  lemma RefreshKeepsKey(line: string, base: string)
    ensures IsKernelopt(RefreshLine(line, base)) <==> IsKernelopt(line)
    ensures IsPrefix(NormalizeLine(line)) <==> IsPrefix(line)
  {
    var n := NormalizeLine(line);
    hide NormalizeLine, MatchesIndented, ValueOf, Normalize, SettledPaths;
    NormalizedKey(line);
    OneKey(line);
    OneKey(n);
    if IsKernelopt(line) { KeyLineNormal(KERNELOPT, line); }
    if MatchesIndented(PREFIX, line) { KeyLineNormal(PREFIX, line); }
    if MatchesIndented(PREFIX_HTTP, line) { KeyLineNormal(PREFIX_HTTP, line); }
    if IsKernelopt(n) { WrittenOption(Normalize(ValueOf(n))); }
    if IsPrefix(n) { WrittenPrefix(base); OneKey("prefix=" + base); }
  }

  /** The two rewrites of one line, in either order. */
  lemma LineCommutes(line: string, base: string, ks: string)
    requires SteadyLine(line) && SteadyUrl(ks)
    ensures KsLine(RefreshLine(line, base), ks) == RefreshLine(KsLine(line, ks), base) <==>
            (IsKernelopt(line) ==> LoweredUrl(ks))
  {
    hide NormalizeLine, MatchesIndented, ValueOf, Normalize, SettledPaths, Merge, SteadyOption,
         SteadyUrl, LoweredUrl, Bared, Strip, IsBlank;
    RefreshKeepsKey(line, base);
    OneKey(line);
    if IsKernelopt(line) {
      var v := ValueOf(line);
      KeyLineNormal(KERNELOPT, line);
      WrittenOption(Normalize(v));
      NormalizeIsTrimmed(v);
      WrittenOption(Merge(v, ks));
      MergeIsTrimmed(v, ks);
      OptionCommutes(v, ks);
      SameText("kernelopt=", Normalize(Merge(v, ks)), Merge(Normalize(v), ks));
    }
  }

  /** The line appended to a file without one. */
  lemma AppendedCommutes(base: string, ks: string)
    requires SteadyUrl(ks)
    ensures RefreshLine("kernelopt=" + Merge("", ks), base) == "kernelopt=" + Merge("", ks) <==>
            LoweredUrl(ks)
  {
    hide NormalizeLine, MatchesIndented, ValueOf, Normalize, Merge, SteadyUrl, LoweredUrl, Strip;
    WrittenOption(Merge("", ks));
    MergeIsTrimmed("", ks);
    EmptySteady();
    OptionCommutes("", ks);
    MergeOfEmpty(ks);
    SameText("kernelopt=", Normalize(Merge("", ks)), Merge("", ks));
  }

  /** On every URL: refreshing the activated line is activating the refreshed one with the
      URL in lower case. */
  lemma LineRelates(line: string, base: string, ks: string)
    requires SteadyLine(line) && SteadyUrl(ks) && ProperUrl(ks)
    ensures RefreshLine(KsLine(line, ks), base) == KsLine(RefreshLine(line, base), LoweredKs(ks))
  {
    hide NormalizeLine, MatchesIndented, ValueOf, Normalize, SettledPaths, Merge, SteadyOption,
         SteadyUrl, LoweredKs, ProperUrl, Bared, Strip, IsBlank;
    RefreshKeepsKey(line, base);
    OneKey(line);
    if IsKernelopt(line) {
      var v := ValueOf(line);
      KeyLineNormal(KERNELOPT, line);
      WrittenOption(Normalize(v));
      NormalizeIsTrimmed(v);
      WrittenOption(Merge(v, ks));
      MergeIsTrimmed(v, ks);
      OptionRelates(v, ks);
    }
  }

  lemma AppendedRelates(base: string, ks: string)
    requires SteadyUrl(ks) && ProperUrl(ks)
    ensures RefreshLine("kernelopt=" + Merge("", ks), base) == "kernelopt=" + Merge("", LoweredKs(ks))
  {
    hide NormalizeLine, MatchesIndented, ValueOf, Normalize, Merge, SteadyUrl, LoweredKs, ProperUrl,
         Strip;
    WrittenOption(Merge("", ks));
    MergeIsTrimmed("", ks);
    EmptySteady();
    OptionRelates("", ks);
    MergeOfEmpty(LoweredKs(ks));
  }

  lemma EmptySteady()
    ensures SteadyOption("") && Stable("") == ["runweasel"]
  {
    assert Tokens("") == [];
  }

  lemma MergeOfEmpty(ks: string)
    ensures Merge(Normalize(""), ks) == Merge("", ks)
  {
    hide Normalize, Stable, SteadyOption, Strip;
    EmptySteady();
    MergeNormalized("");
    RunweaselLowered();
    LoweredOne("runweasel");
    MergeFromStable("", ks);
    MergeFromStable(Normalize(""), ks);
  }

  lemma MergeFromStable(kopt: string, ks: string)
    ensures Merge(kopt, ks) == Strip(Join(" ", Stable(kopt) + KsTokens(ks)))
  {
  }

  // ---- Trailing white space under the refresh ---------------------------

  lemma BaredRightTrimmed(line: string)
    ensures Bared(RightTrimmed(line)) == Bared(line)
  {
    hide Strip, RightTrimmed;
    StripRightTrimmed(line);
  }

  lemma {:induction false} SettledJoinTrimmed(qs: seq<string>)
    requires AllSettled(qs)
    ensures Trimmed(JoinModules(qs)) && (qs != [] ==> JoinModules(qs) != "")
  {
    if |qs| > 1 {
      SettledJoinTrimmed(qs[1..]);
      var rest := JoinModules(qs[1..]);
      var s := JoinModules(qs);
      assert s == qs[0] + SEPARATOR + rest;
      assert s[0] == qs[0][0] && s[|s| - 1] == rest[|rest| - 1];
    }
  }

  lemma EmptyJoin()
    ensures JoinModules([""]) == "" && Trimmed("")
  {
  }

  /** What the normaliser writes for a settled path line has no trailing space. */
  lemma PathLineTrimmed(line: string)
    requires SettledPaths(line) && Bared(line) != "" && !IsRaw(line)
    ensures RightTrimmed(NormalizeLine(line)) == NormalizeLine(line)
    ensures NormalizeLine(line) != ""
  {
    var s := Bared(line);
    EmptyJoin();
    hide Bared, Matches, ValueOf, LowerRel, Segments, IsComment, RightTrimmed, AllSettled, Trimmed;
    if Matches(KERNEL, s) {
      HeadedTrim("kernel=", LowerRel(ValueOf(s)));
    } else if Matches(MODULES, s) {
      var qs := LowerPaths(Segments(ValueOf(s)));
      if qs != [""] { SettledJoinTrimmed(qs); }
      HeadedTrim("modules=", JoinModules(qs));
    } else {
      HeadedTrim("module=", LowerRel(ValueOf(s)));
      HeadedTrim("module=", "");
      assert "module=" + "" == "module=";
    }
  }

  lemma HeadedTrim(head: string, m: string)
    requires Trimmed(m) && head in ["kernel=", "modules=", "module=", "prefix=", "kernelopt="]
    ensures RightTrimmed(head + m) == head + m && !IsBlank(head + m)
  {
    hide RightTrimmed, Trimmed;
    assert head[|head| - 1] == '=';
    PrefixedTrim(head, m);
  }

  lemma BlankRefresh(line: string, base: string)
    requires IsBlank(line)
    ensures RefreshLine(line, base) == ""
  {
    BaredRightTrimmed(line);
    EmptyStrip();
    NoKeyInEmpty();
    hide IsPrefix, IsKernelopt;
  }

  /** The normaliser keeps this line as it stands. */
  predicate IsRaw(line: string) {
    var s := Bared(line);
    s != "" &&
    (IsComment(s) || !(Matches(KERNEL, s) || Matches(MODULES, s) || Matches(MODULE, s)))
  }

  lemma RawNormal(line: string)
    ensures IsRaw(line) ==> NormalizeLine(line) == line
    ensures Bared(line) != "" && !IsRaw(line) && SettledPaths(line) ==>
            RightTrimmed(NormalizeLine(line)) == NormalizeLine(line) && NormalizeLine(line) != ""
  {
    hide Bared, Matches, ValueOf, LowerRel, Segments, IsComment, RightTrimmed, AllSettled, Trimmed,
         SettledModules, JoinModules;
    if Bared(line) != "" && !IsRaw(line) && SettledPaths(line) { PathLineTrimmed(line); }
  }

  /** The normaliser takes the same branch with and without trailing space. */
  lemma NormalizeRightTrimmed(line: string)
    ensures NormalizeLine(RightTrimmed(line)) ==
            if IsRaw(line) then RightTrimmed(line) else NormalizeLine(line)
  {
    hide Bared, Matches, ValueOf, LowerRel, Segments, IsComment, RightTrimmed;
    BaredRightTrimmed(line);
  }

  lemma PrefixRightTrimmed(line: string)
    ensures IsPrefix(RightTrimmed(line)) <==> IsPrefix(line)
    ensures IsKernelopt(RightTrimmed(line)) <==> IsKernelopt(line)
    ensures IsKernelopt(line) ==> ValueOf(RightTrimmed(line)) == ValueOf(line)
  {
    Names();
    hide IsName, MatchesIndented, ValueOf, TrimRight;
    MatchesRightTrimmed(PREFIX, line);
    MatchesRightTrimmed(PREFIX_HTTP, line);
    MatchesRightTrimmed(KERNELOPT, line);
  }

  lemma NormalizeTrim(line: string)
    requires SettledPaths(line) && Bared(line) != "" && !IsBlank(line)
    ensures NormalizeLine(RightTrimmed(line)) == RightTrimmed(NormalizeLine(line))
    ensures !IsBlank(NormalizeLine(line))
  {
    hide SettledPaths, NormalizeLine, RightTrimmed, IsRaw, Bared;
    RawNormal(line);
    NormalizeRightTrimmed(line);
  }

  lemma NetworkTrim(n: string, base: string)
    requires Trimmed(base)
    ensures NetworkLine(RightTrimmed(n), base) == RightTrimmed(NetworkLine(n, base))
    ensures !IsBlank(n) ==> !IsBlank(NetworkLine(n, base))
  {
    hide IsPrefix, IsKernelopt, ValueOf, Normalize, RightTrimmed, Trimmed, Strip;
    PrefixRightTrimmed(n);
    if IsPrefix(n) {
      HeadedTrim("prefix=", base);
    } else if IsKernelopt(n) {
      var x := Normalize(ValueOf(n));
      NormalizeIsTrimmed(ValueOf(n));
      StripIsTrimmed(x);
      HeadedTrim("kernelopt=", x);
    }
  }

  /** The refresh of a steady line commutes with trimming its end. */
  lemma RefreshKeepsEnd(line: string, base: string)
    requires SettledPaths(line) && (Bared(line) == "" ==> IsBlank(line)) && Trimmed(base)
    ensures KeepsEnd(RefreshLineOf(base), line)
  {
    EmptyRightTrimmed();
    hide SettledPaths, NormalizeLine, RightTrimmed, Trimmed, Bared, NetworkLine;
    if IsBlank(line) {
      BlankRefresh(line, base);
    } else {
      NormalizeTrim(line);
      NetworkTrim(NormalizeLine(line), base);
    }
  }

  lemma StripIsTrimmed(x: string)
    requires Strip(x) == x
    ensures Trimmed(x)
  {
    TrimIsBare(IsSpace, x);
  }

  lemma EmptyRightTrimmed()
    ensures RightTrimmed("") == ""
  {
  }
}
