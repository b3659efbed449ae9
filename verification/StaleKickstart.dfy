/** A kickstart path with capital letters: activation and refresh do not commute on it, and a
    refresh after its activation leaves another URL in the file. */
module StaleKickstart {
  import opened Text
  import opened Lines
  import opened Url
  import opened ConfigLine
  import opened Kernelopt
  import opened KerneloptTwice
  import opened Kickstart
  import opened KickstartLaws
  import opened NetworkLaws
  import opened CommuteOption
  import opened Refresh
  import opened RefreshLaws
  import opened RefreshText
  import opened CommuteLine
  import opened CommuteFile
  import opened EsxiRuns

  const CAPITAL := "http://h/KS.CFG"

  const CAPITAL_PARTS := Parts("http", "h", "/KS.CFG", "", "", "")

  const SMALL_PARTS := Parts("http", "h", "/ks.cfg", "", "", "")

  lemma {:induction false} NoMention(s: string)
    requires 'b' !in s && 'B' !in s
    ensures !MentionsCdrom(s)
    decreases |s|
  {
    if s != "" {
      if IsWord(s[0]) {
        var n := Span(IsWord, s);
        NoMention(s[n..]);
        OtherWord(s[..n]);
      } else {
        NoMention(s[1..]);
      }
    }
  }

  lemma OtherWord(word: string)
    requires 'b' !in word && 'B' !in word
    ensures Lower(word) != "cdromboot"
  {
    assert "cdromboot"[5] == 'b' && |"cdromboot"| == 9;
    if |word| == 9 { assert Lower(word)[5] == LowerChar(word[5]) != 'b'; }
  }

  lemma CapitalChars()
    ensures All(IsPlain, CAPITAL) && 'b' !in CAPITAL && 'B' !in CAPITAL && CAPITAL != "" && CAPITAL[0] == 'h'
  {
  }

  lemma PathWellFormed(path: string)
    requires path != "" && path[0] == '/' && ';' !in path && '?' !in path && '#' !in path
    ensures WellFormed(Parts("http", "h", path, "", "", ""))
  {
    assert All(NotNetEnd, "h") && All(NotNetEnd, "") && All(NotHash, "");
    assert All(NotSemicolon, path[LastSegment(path)..]) by {
      hide LastSegment;
      assert forall i :: 0 <= i < |path[LastSegment(path)..]| ==> path[LastSegment(path)..][i] in path;
    }
  }

  lemma PathTexts()
    ensures "/KS.CFG" != "" && "/KS.CFG"[0] == '/' && ';' !in "/KS.CFG" && '?' !in "/KS.CFG" && '#' !in "/KS.CFG"
    ensures "/ks.cfg" != "" && "/ks.cfg"[0] == '/' && ';' !in "/ks.cfg" && '?' !in "/ks.cfg" && '#' !in "/ks.cfg"
    ensures Lower("/KS.CFG") == "/ks.cfg" && "/KS.CFG" != "/ks.cfg" && !BadNetloc("h")
  {
    assert "/KS.CFG"[1] == 'K' && "/ks.cfg"[1] == 'k';
  }

  lemma PartsWellFormed()
    ensures WellFormed(CAPITAL_PARTS) && WellFormed(SMALL_PARTS)
    ensures Lower("/KS.CFG") == "/ks.cfg" && "/KS.CFG" != "" && "/KS.CFG" != "/ks.cfg" && !BadNetloc("h")
  {
    hide WellFormed, Lower;
    PathTexts();
    PathWellFormed("/KS.CFG");
    PathWellFormed("/ks.cfg");
  }

  lemma CapitalUnparsed()
    ensures Unparse(CAPITAL_PARTS) == CAPITAL
  {
    var path := "/KS.CFG";
    assert path + "" + "" + "" == path;
    assert "http" + "://" + ("h" + path) == CAPITAL;
  }

  /** Its path is not in lower case, and that is all that is wrong with it. */
  lemma CapitalLowered()
    ensures SteadyUrl(CAPITAL) && ProperUrl(CAPITAL) && !LoweredUrl(CAPITAL)
  {
    CapitalChars();
    CapitalUnparsed();
    PartsWellFormed();
    NoMention(CAPITAL);
    hide CAPITAL, All, MentionsCdrom, IsHttp, WellFormed, Unparse, ParseUrl, LowerUrlPath, LowerRel, LowerToken,
         BadNetloc;
    ParseUnparse(CAPITAL_PARTS);
    ParseUnparse(SMALL_PARTS);
    LowerUrlPathIs(CAPITAL);
    assert LoweredParts(CAPITAL) == SMALL_PARTS;
    PlainStrip(CAPITAL);
    LoweredUrlMeans(CAPITAL);
  }

  // ---- A file -----------------------------------------------------------

  const EMPTY_OPTION := "kernelopt="

  /** A boot.cfg of one empty kernelopt line. */
  const BARE := Unlines([EMPTY_OPTION])

  lemma EmptyOption()
    ensures SteadyLine(EMPTY_OPTION) && LineSettled(EMPTY_OPTION) && OneLine(EMPTY_OPTION)
  {
    WrittenSteady("");
    WrittenOption("");
    EmptySteady();
    NothingSettles();
    KeysOneLine();
    NoSpaceStrip("");
    assert "kernelopt=" + "" == EMPTY_OPTION;
    hide All, SettledPaths, Bared, SteadyOption, SettledOption, IsKernelopt, ValueOf, NormalizeLine, IsBlank,
         Strip;
  }

  lemma NothingSettles()
    ensures SettledOption("")
  {
  }

  lemma BareLines()
    ensures SplitLines(BARE) == [EMPTY_OPTION] && BARE != ""
  {
    EmptyOption();
    hide All, SteadyLine, LineSettled, EMPTY_OPTION;
    SplitUnlines([EMPTY_OPTION]);
    assert |BARE| > 0;
  }

  lemma BareIsGood()
    ensures GoodFile(BARE)
  {
    hide SteadyLine, LineSettled, BARE, EMPTY_OPTION, All, SplitLines;
    EmptyOption();
    BareLines();
  }

  /** On this file and this URL the order of activation and refresh matters, for any server. */
  lemma CapitalDiffers(base: string)
    requires SteadyBase(base)
    ensures WithKs(Refreshed(BARE, base), CAPITAL) != Refreshed(WithKs(BARE, CAPITAL), base)
  {
    hide SteadyFile, SteadyUrl, LoweredUrl, SteadyBase, FileSettles, WithKs, Refreshed, BARE, CAPITAL, ProperUrl;
    BareIsGood();
    CapitalLowered();
    ActivationCommutes(BARE, base, CAPITAL);
  }

  // ---- A run ------------------------------------------------------------

  lemma CapitalIsBuilt()
    ensures KsUrl("http://h", "KS.CFG") == CAPITAL
  {
    assert All(IsSlash, "") && "http://h" + "" == "http://h" && !IsSlash('h') && !IsSlash('K');
    KeptOf(IsSlash, "http://h", "");
    SpanOf(IsSlash, "", "KS.CFG");
    assert "" + "KS.CFG" == "KS.CFG";
  }

  /** Activating it and then refreshing the menus leaves every kernelopt line with another URL
      than that of the configuration that is still the active one. */
  lemma StaleRun(v: Version, cfg: Config, menus: string)
    requires Accepts(v, cfg) && cfg.path == "KS.CFG" && SteadyBase(MenuBase(menus, v.folder))
    ensures
      var end := Run(v, State(Some(BARE), None, None), [Activate(cfg, "http://h"), Refresh(menus)]);
      && end.active == Some(cfg.id) && end.boot.Some?
      && !Carries(end.boot.value, KsTokens(KsUrl("http://h", cfg.path)))
  {
    var steps := [Activate(cfg, "http://h"), Refresh(menus)];
    CapitalIsBuilt();
    CapitalLowered();
    BareIsGood();
    hide Accepts, GoodFile, SteadyUrl, LoweredUrl, SteadyBase, WithKs, Refreshed, BARE, CAPITAL, ProperUrl, KsUrl,
         MenuBase, Carries, KsTokens, LoweredKs, Run;
    TwoSteps(v, cfg, menus);
    assert forall i :: 0 <= i < |steps| ==> GoodStep(v, steps[i]);
    assert IsEsxi(v) by { AcceptsEsxi(v, cfg); }
    RunTokens(v, BARE, None, steps);
    RunIsCanonical(v, BARE, None, steps);
  }

  lemma AcceptsEsxi(v: Version, cfg: Config)
    requires Accepts(v, cfg)
    ensures IsEsxi(v)
  {
  }

  lemma TwoSteps(v: Version, cfg: Config, menus: string)
    requires Accepts(v, cfg)
    ensures
      var sum := SummarizeAll(v, NOTHING, [Activate(cfg, "http://h"), Refresh(menus)]);
      var url := KsUrl("http://h", cfg.path);
      sum.last == Some(Written(url, LoweredKs(url), true)) && sum.active == Some(cfg.id)
  {
    hide Accepts, KsUrl, MenuBase, LoweredKs;
    var steps := [Activate(cfg, "http://h"), Refresh(menus)];
    assert steps[1..] == [Refresh(menus)] && [Refresh(menus)][1..] == [];
    var first := Summarize(v, NOTHING, steps[0]);
    assert SummarizeAll(v, first, [Refresh(menus)]) == SummarizeAll(v, Summarize(v, first, Refresh(menus)), []);
  }
}
