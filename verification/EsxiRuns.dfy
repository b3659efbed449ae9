/** One ESXi version through any run of kickstart activations, clears, deletions of
    configurations and menu refreshes. */
module EsxiRuns {
  import opened Text
  import opened Lines
  import opened ConfigLine
  import opened Kickstart
  import opened KickstartLaws
  import opened NetworkLaws
  import opened CommuteOption
  import opened Refresh
  import opened RefreshLaws
  import opened RefreshText
  import opened CommuteLine
  import opened CommuteFile
  import opened SettledKs

  datatype Config = Config(id: int, versionId: int, kind: string, path: string)

  datatype ActivationError = NotEsxi | WrongVersion | WrongKind | EmptyPath | NoBootCfg

  /** What does not change during a run: the row id, the system's slug, the folder name. */
  datatype Version = Version(id: int, slug: string, folder: string)

  /** The boot.cfg that carries `ks=`, the one for manual boots, the active row. */
  datatype State = State(boot: Option<string>, manual: Option<string>, active: Option<int>)

  datatype Step =
    | Activate(cfg: Config, server: string)
    | Clear
    | Delete(configId: int)
    | Refresh(server: string)

  function KsUrl(server: string, path: string): string {
    TrimRight(IsSlash, server) + "/" + TrimLeft(IsSlash, path)
  }

  function MenuBase(server: string, folder: string): string {
    TrimRight(IsSlash, server) + "/boot/esxi/" + folder + "/"
  }

  predicate IsEsxi(v: Version) { Lower(v.slug) == "esxi" }

  /** Why a configuration cannot be activated, in the order the source checks. */
  function Refusal(v: Version, s: State, cfg: Config): Option<ActivationError> {
    if !IsEsxi(v) then Some(NotEsxi)
    else if cfg.versionId != v.id then Some(WrongVersion)
    else if cfg.kind != "esxi-kickstart" && cfg.kind != "kickstart" then Some(WrongKind)
    else if Strip(cfg.path) == "" then Some(EmptyPath)
    else if s.boot == None then Some(NoBootCfg)
    else None
  }

  function Cleared(v: Version, s: State): State {
    if !IsEsxi(v) then s
    else State(if s.boot.Some? then Some(WithKs(s.boot.value, "")) else None, s.manual, None)
  }

  function RefreshedFile(file: Option<string>, base: string): Option<string> {
    if file.Some? then Some(Refreshed(file.value, base)) else None
  }

  function Apply(v: Version, s: State, step: Step): State {
    match step
    case Activate(cfg, server) =>
      if Refusal(v, s, cfg).Some? then s
      else State(Some(WithKs(s.boot.value, KsUrl(server, cfg.path))), s.manual, Some(cfg.id))
    case Clear => Cleared(v, s)
    case Delete(configId) => if s.active == Some(configId) then Cleared(v, s.(active := None)) else s
    case Refresh(server) =>
      var base := MenuBase(server, v.folder);
      State(RefreshedFile(s.boot, base), RefreshedFile(s.manual, base), s.active)
  }

  function Run(v: Version, s: State, steps: seq<Step>): State
    decreases |steps|
  {
    if steps == [] then s else Run(v, Apply(v, s, steps[0]), steps[1..])
  }

  /** The row and the two files, as the source updates them. */
  class EsxiVersion {
    const version: Version
    var boot: Option<string>
    var manual: Option<string>
    var active: Option<int>

    constructor (version: Version, boot: Option<string>, manual: Option<string>)
      ensures this.version == version && Current() == State(boot, manual, None)
    {
      this.version := version;
      this.boot, this.manual, this.active := boot, manual, None;
    }

    function Current(): State
      reads this
    {
      State(boot, manual, active)
    }

    method ActivateKickstart(cfg: Config, server: string) returns (refused: Option<ActivationError>)
      modifies this`boot, this`active
      ensures refused == Refusal(version, old(Current()), cfg)
      ensures Current() == Apply(version, old(Current()), Activate(cfg, server))
    {
      refused := None;
      if !IsEsxi(version) { return Some(NotEsxi); }
      if cfg.versionId != version.id { return Some(WrongVersion); }
      if cfg.kind != "esxi-kickstart" && cfg.kind != "kickstart" { return Some(WrongKind); }
      if Strip(cfg.path) == "" { return Some(EmptyPath); }
      if boot == None { return Some(NoBootCfg); }
      var text := RewriteKernelopt(boot.value, KsUrl(server, cfg.path));
      boot := Some(text);
      active := Some(cfg.id);
    }

    method ClearKickstart()
      modifies this`boot, this`active
      ensures Current() == Apply(version, old(Current()), Clear)
    {
      if !IsEsxi(version) { return; }
      if boot.Some? {
        var text := RewriteKernelopt(boot.value, "");
        boot := Some(text);
      }
      active := None;
    }

    method DeleteConfig(configId: int)
      modifies this`boot, this`active
      ensures Current() == Apply(version, old(Current()), Delete(configId))
    {
      var wasActive := active == Some(configId);
      if wasActive {
        active := None;
        if IsEsxi(version) { ClearKickstart(); }
      }
    }

    method RefreshMenus(server: string)
      modifies this`boot, this`manual
      ensures Current() == Apply(version, old(Current()), Refresh(server))
    {
      var base := MenuBase(server, version.folder);
      if boot.Some? {
        var text := RefreshBootCfg(boot.value, base);
        boot := Some(text);
      }
      if manual.Some? {
        var text := RefreshBootCfg(manual.value, base);
        manual := Some(text);
      }
    }
  }

  // ---- What a run amounts to --------------------------------------------

  /** The URL last activated, empty after a clear; what refreshes have made of it since; and
      whether there were any. */
  datatype Written = Written(url: string, ks: string, stale: bool)

  /** The last effective activation or clear, the last refresh, and the active row. */
  datatype Summary = Summary(last: Option<Written>, base: Option<string>, active: Option<int>)

  const NOTHING := Summary(None, None, None)

  predicate Accepts(v: Version, cfg: Config) {
    && IsEsxi(v) && cfg.versionId == v.id
    && (cfg.kind == "esxi-kickstart" || cfg.kind == "kickstart") && Strip(cfg.path) != ""
  }

  function Fresh(url: string): Option<Written> { Some(Written(url, url, false)) }

  /** A refresh lower-cases the path of the URL it finds. */
  function Aged(last: Option<Written>): Option<Written> {
    if last.Some? then Some(Written(last.value.url, LoweredKs(last.value.ks), true)) else None
  }

  function Summarize(v: Version, sum: Summary, step: Step): Summary {
    match step
    case Activate(cfg, server) =>
      if Accepts(v, cfg) then Summary(Fresh(KsUrl(server, cfg.path)), sum.base, Some(cfg.id)) else sum
    case Clear => Summary(Fresh(""), sum.base, None)
    case Delete(configId) =>
      if sum.active == Some(configId) then Summary(Fresh(""), sum.base, None) else sum
    case Refresh(server) => Summary(Aged(sum.last), Some(MenuBase(server, v.folder)), sum.active)
  }

  function SummarizeAll(v: Version, sum: Summary, steps: seq<Step>): Summary
    decreases |steps|
  {
    if steps == [] then sum else SummarizeAll(v, Summarize(v, sum, steps[0]), steps[1..])
  }

  function CanonicalFile(file: Option<string>, base: Option<string>): Option<string> {
    if base.Some? then RefreshedFile(file, base.value) else file
  }

  /** The file a summary stands for: the original, refreshed once, activated once. */
  function Canonical(text: string, last: Option<Written>, base: Option<string>): string {
    var file := if base.Some? then Refreshed(text, base.value) else text;
    if last.Some? then WithKs(file, last.value.ks) else file
  }

  /** The state a summary stands for. */
  function Reached(text: string, manual: Option<string>, sum: Summary): State {
    State(Some(Canonical(text, sum.last, sum.base)), CanonicalFile(manual, sum.base), sum.active)
  }

  lemma SteadyLeavesNothing(ks: string)
    requires SteadyUrl(ks)
    ensures LeavesNothing(ks) && OneLine(ks) && NoSpaceIn(ks)
  {
    assert NoSpaceIn(ks) by {
      SteadyNoSpace(ks);
      assert forall i :: 0 <= i < |ks| ==> NotSpace(ks[i]);
    }
    hide All, Leftover;
    PlainUrlLeavesNothing(ks);
  }

  lemma EmptyUrlIsGood()
    ensures SteadyUrl("") && ProperUrl("") && NoSpaceIn("") && LeavesNothing("") && OneLine("")
  {
    assert SteadyUrl("");
    hide SteadyUrl, LeavesNothing;
    SteadyLeavesNothing("");
  }

  lemma UrlNotEmpty(server: string, path: string)
    ensures KsUrl(server, path) != ""
  {
  }

  /** A row is active exactly when the last effective step was an activation. */
  predicate RowMatches(sum: Summary) {
    sum.active.None? <==> sum.last == None || sum.last.value.url == ""
  }

  lemma RowStillMatches(v: Version, sum: Summary, step: Step)
    requires RowMatches(sum)
    ensures RowMatches(Summarize(v, sum, step))
  {
    hide KsUrl, MenuBase, LoweredKs, Strip;
    if step.Activate? { UrlNotEmpty(step.server, step.cfg.path); }
  }

  /** Activating (or clearing) in a canonical file replaces the last activation. */
  lemma CanonicalKs(text: string, sum: Summary, ks: string)
    requires OneLine(ks)
    requires sum.last.Some? ==> LeavesNothing(sum.last.value.ks) && OneLine(sum.last.value.ks)
    ensures WithKs(Canonical(text, sum.last, sum.base), ks) == Canonical(text, Fresh(ks), sum.base)
  {
    hide WithKs, Refreshed, LeavesNothing, OneLine;
    var file := if sum.base.Some? then Refreshed(text, sum.base.value) else text;
    if sum.last.Some? { KickstartAbsorbs(file, sum.last.value.ks, ks); }
  }

  // ---- Runs without a refresh -------------------------------------------

  /** A step other than a refresh, whose URL is one line and leaves no token behind. */
  predicate QuietStep(v: Version, step: Step) {
    match step
    case Activate(cfg, server) =>
      Accepts(v, cfg) ==> LeavesNothing(KsUrl(server, cfg.path)) && OneLine(KsUrl(server, cfg.path))
    case Refresh(_) => false
    case _ => true
  }

  predicate QuietSteps(v: Version, steps: seq<Step>) {
    forall i :: 0 <= i < |steps| ==> QuietStep(v, steps[i])
  }

  predicate QuietSummary(sum: Summary) {
    && sum.base == None && RowMatches(sum)
    && (sum.last.Some? ==>
          && sum.last.value.ks == sum.last.value.url
          && LeavesNothing(sum.last.value.ks) && OneLine(sum.last.value.ks))
  }

  lemma QuietStepReaches(v: Version, text: string, manual: Option<string>, sum: Summary, step: Step)
    requires IsEsxi(v) && QuietSummary(sum) && QuietStep(v, step)
    ensures QuietSummary(Summarize(v, sum, step))
    ensures Apply(v, Reached(text, manual, sum), step) ==
            Reached(text, manual, Summarize(v, sum, step))
  {
    hide WithKs, LeavesNothing, OneLine, Strip, KsUrl, SteadyUrl, ProperUrl, NoSpaceIn, Canonical;
    EmptyUrlIsGood();
    RowStillMatches(v, sum, step);
    match step
    case Activate(cfg, server) =>
      if Accepts(v, cfg) { CanonicalKs(text, sum, KsUrl(server, cfg.path)); }
    case Clear =>
      CanonicalKs(text, sum, "");
    case Delete(configId) =>
      CanonicalKs(text, sum, "");
  }

  lemma {:induction false} QuietRunReaches(
    v: Version, text: string, manual: Option<string>, sum: Summary, steps: seq<Step>)
    requires IsEsxi(v) && QuietSummary(sum) && QuietSteps(v, steps)
    ensures QuietSummary(SummarizeAll(v, sum, steps))
    ensures Run(v, Reached(text, manual, sum), steps) ==
            Reached(text, manual, SummarizeAll(v, sum, steps))
    decreases |steps|
  {
    if steps != [] {
      assert QuietStep(v, steps[0]) && QuietSteps(v, steps[1..]);
      hide IsEsxi, QuietSummary, QuietStep, Reached, Apply, Summarize;
      QuietStepReaches(v, text, manual, sum, steps[0]);
      QuietRunReaches(v, text, manual, Summarize(v, sum, steps[0]), steps[1..]);
    }
  }

  /** Activations, clears and deletes on any boot.cfg: however many there were, the file is
      the original rewritten once, for the last of them, and the manual file is untouched. */
  lemma RunWithoutRefresh(v: Version, text: string, manual: Option<string>, steps: seq<Step>)
    requires IsEsxi(v) && QuietSteps(v, steps)
    ensures
      var sum := SummarizeAll(v, NOTHING, steps);
      Run(v, State(Some(text), manual, None), steps) ==
      State(Some(if sum.last.Some? then WithKs(text, sum.last.value.url) else text), manual, sum.active)
  {
    hide IsEsxi, QuietSteps, WithKs, Refreshed, LeavesNothing, OneLine;
    QuietRunReaches(v, text, manual, NOTHING, steps);
  }

  /** A step other than a refresh, whose URL holds no white space. */
  predicate WordStep(v: Version, step: Step) {
    match step
    case Activate(cfg, server) => Accepts(v, cfg) ==> NoSpaceIn(KsUrl(server, cfg.path))
    case Refresh(_) => false
    case _ => true
  }

  predicate WordSteps(v: Version, steps: seq<Step>) {
    forall i :: 0 <= i < |steps| ==> WordStep(v, steps[i])
  }

  lemma WordIsQuiet(v: Version, step: Step)
    requires WordStep(v, step)
    ensures QuietStep(v, step)
  {
    hide Accepts, LeavesNothing, OneLine, NoSpaceIn, KsUrl;
    if step.Activate? && Accepts(v, step.cfg) {
      NoSpaceOneLine(KsUrl(step.server, step.cfg.path));
      PlainUrlLeavesNothing(KsUrl(step.server, step.cfg.path));
    }
  }

  lemma NoSpaceOneLine(ks: string)
    requires NoSpaceIn(ks)
    ensures OneLine(ks)
  {
  }

  predicate WordLast(sum: Summary) { sum.last.Some? ==> NoSpaceIn(sum.last.value.url) }

  lemma {:induction false} LastIsWord(v: Version, sum: Summary, steps: seq<Step>)
    requires WordSteps(v, steps) && WordLast(sum)
    ensures WordLast(SummarizeAll(v, sum, steps))
    decreases |steps|
  {
    EmptyUrlIsGood();
    if steps != [] {
      assert WordStep(v, steps[0]) && WordSteps(v, steps[1..]);
      hide Accepts, NoSpaceIn, KsUrl, LeavesNothing, OneLine, SteadyUrl, ProperUrl, WordSteps;
      LastIsWord(v, Summarize(v, sum, steps[0]), steps[1..]);
    }
  }

  /** The `ks=` tokens of every kernelopt line of a boot file, of which there is at least one. */
  predicate Carries(file: string, tokens: seq<string>) {
    && AnyKernelopt(SplitLines(file))
    && forall line :: line in SplitLines(file) && IsKernelopt(line) ==>
         KsOf(Tokens(ValueOf(line))) == tokens
  }

  /** After any run without a refresh, on any boot.cfg, every kernelopt line carries exactly
      the URL of the active configuration, and none once cleared. */
  lemma TokensWithoutRefresh(v: Version, text: string, manual: Option<string>, steps: seq<Step>)
    requires IsEsxi(v) && WordSteps(v, steps) && SummarizeAll(v, NOTHING, steps).last.Some?
    ensures
      var url := SummarizeAll(v, NOTHING, steps).last.value.url;
      var end := Run(v, State(Some(text), manual, None), steps);
      && end.boot.Some? && Carries(end.boot.value, KsTokens(url))
      && (end.active.None? <==> url == "")
  {
    var sum := SummarizeAll(v, NOTHING, steps);
    hide IsEsxi, WithKs, Refreshed, SplitLines, IsKernelopt, KsOf, Tokens, KsTokens, AnyKernelopt,
         LeavesNothing, OneLine, NoSpaceIn, WordStep, QuietStep;
    forall i | 0 <= i < |steps| ensures QuietStep(v, steps[i]) { WordIsQuiet(v, steps[i]); }
    QuietRunReaches(v, text, manual, NOTHING, steps);
    LastIsWord(v, NOTHING, steps);
    ActivatedTokens(text, sum.last.value.url);
  }

  // ---- Runs with refreshes ----------------------------------------------

  /** Every URL is free of white space, of `%` and of the word cdromBoot, and has some text. */
  predicate GoodStep(v: Version, step: Step) {
    match step
    case Activate(cfg, server) =>
      Accepts(v, cfg) ==>
        SteadyUrl(KsUrl(server, cfg.path)) && ProperUrl(KsUrl(server, cfg.path))
    case Refresh(server) => SteadyBase(MenuBase(server, v.folder))
    case _ => true
  }

  predicate GoodSteps(v: Version, steps: seq<Step>) {
    forall i :: 0 <= i < |steps| ==> GoodStep(v, steps[i])
  }

  /** What refreshes can have made of a URL. */
  predicate GoodWritten(w: Written) {
    && SteadyUrl(w.url) && SteadyUrl(w.ks) && ProperUrl(w.ks)
    && if w.stale then w.ks == LoweredKs(w.url) || w.ks == LoweredKs(LoweredKs(w.url))
       else w.ks == w.url
  }

  predicate GoodSummary(sum: Summary) {
    && (sum.last.Some? ==> GoodWritten(sum.last.value))
    && (sum.base.Some? ==> SteadyBase(sum.base.value))
    && RowMatches(sum)
  }

  /** A file whose rewrites can be summarised. */
  predicate GoodFile(text: string) { SteadyFile(text) && FileSettles(text) }

  /** The manual file only ever sees refreshes. */
  predicate GoodManual(manual: Option<string>) {
    manual.Some? ==> OptionsAreSmooth(manual.value) && FileSettles(manual.value)
  }

  lemma AgedIsGood(w: Written)
    requires GoodWritten(w)
    ensures GoodWritten(Written(w.url, LoweredKs(w.ks), true))
  {
    hide SteadyUrl, ProperUrl, LoweredKs;
    LoweredKsKeeps(w.ks);
    LoweredKsSettles(w.url);
  }

  lemma SteadyIsSmooth(text: string)
    requires SteadyFile(text)
    ensures OptionsAreSmooth(text)
  {
    hide SplitLines, SettledPaths, Bared, IsBlank, SteadyOption, SmoothOption, ValueOf, IsKernelopt;
    var lines := SplitLines(text);
    forall i | 0 <= i < |lines| ensures SmoothKernelopt(lines[i]) {
      assert SteadyLine(lines[i]);
      if IsKernelopt(lines[i]) { SteadyOptionSmooth(ValueOf(lines[i])); }
    }
  }

  /** Refreshing a canonical file replaces the last refresh and lower-cases the URL. */
  lemma CanonicalRefresh(text: string, sum: Summary, base: string)
    requires GoodFile(text) && GoodSummary(sum) && SteadyBase(base)
    ensures Refreshed(Canonical(text, sum.last, sum.base), base) ==
            Canonical(text, Aged(sum.last), Some(base))
  {
    hide WithKs, Refreshed, SteadyFile, FileSettles, SteadyUrl, ProperUrl, LoweredKs, OneLine, Trimmed,
         OptionsAreSmooth;
    var file := if sum.base.Some? then Refreshed(text, sum.base.value) else text;
    if sum.base.Some? {
      SteadyIsSmooth(text);
      RefreshedSteady(text, sum.base.value);
      RefreshAbsorption(text, sum.base.value, base);
    }
    if sum.last.Some? { ActivationRelates(file, base, sum.last.value.ks); }
  }

  lemma ManualRefresh(manual: Option<string>, last: Option<string>, base: string)
    requires GoodManual(manual) && SteadyBase(base) && (last.Some? ==> SteadyBase(last.value))
    ensures RefreshedFile(CanonicalFile(manual, last), base) == CanonicalFile(manual, Some(base))
  {
    hide Refreshed, OptionsAreSmooth, FileSettles, OneLine, Trimmed;
    if manual.Some? && last.Some? {
      RefreshAbsorption(manual.value, last.value, base);
    }
  }

  lemma GoodLeavesNothing(sum: Summary)
    requires GoodSummary(sum)
    ensures sum.last.Some? ==> LeavesNothing(sum.last.value.ks) && OneLine(sum.last.value.ks)
  {
    hide SteadyUrl, LeavesNothing, OneLine, NoSpaceIn, LoweredKs, ProperUrl;
    if sum.last.Some? { SteadyLeavesNothing(sum.last.value.ks); }
  }

  lemma SummaryStaysGood(v: Version, sum: Summary, step: Step)
    requires GoodSummary(sum) && GoodStep(v, step)
    ensures GoodSummary(Summarize(v, sum, step))
  {
    hide SteadyUrl, ProperUrl, LoweredKs, LeavesNothing, OneLine, NoSpaceIn, KsUrl, MenuBase, Accepts,
         SteadyBase;
    EmptyUrlIsGood();
    RowStillMatches(v, sum, step);
    if sum.last.Some? { AgedIsGood(sum.last.value); }
  }

  /** One step from a reached state leads to the state of the next summary. */
  lemma StepReaches(v: Version, text: string, manual: Option<string>, sum: Summary, step: Step)
    requires IsEsxi(v) && GoodFile(text) && GoodManual(manual) && GoodSummary(sum)
    requires GoodStep(v, step)
    ensures Apply(v, Reached(text, manual, sum), step) ==
            Reached(text, manual, Summarize(v, sum, step))
  {
    hide WithKs, Refreshed, GoodFile, GoodManual, GoodSummary, SteadyUrl, ProperUrl, SteadyBase,
         Canonical, Strip, KsUrl, MenuBase, CanonicalFile, LeavesNothing, OneLine, NoSpaceIn, LoweredKs;
    EmptyUrlIsGood();
    GoodLeavesNothing(sum);
    match step
    case Activate(cfg, server) =>
      if Accepts(v, cfg) {
        SteadyLeavesNothing(KsUrl(server, cfg.path));
        CanonicalKs(text, sum, KsUrl(server, cfg.path));
      }
    case Clear =>
      CanonicalKs(text, sum, "");
    case Delete(configId) =>
      CanonicalKs(text, sum, "");
    case Refresh(server) =>
      BaseIsGood(sum);
      CanonicalRefresh(text, sum, MenuBase(server, v.folder));
      ManualRefresh(manual, sum.base, MenuBase(server, v.folder));
  }

  lemma BaseIsGood(sum: Summary)
    requires GoodSummary(sum)
    ensures sum.base.Some? ==> SteadyBase(sum.base.value)
  {
  }

  /** After any run, the files and the active row depend only on the original files, the
      last effective activation or clear with the refreshes since, and the last refresh. */
  lemma {:induction false} RunReaches(
    v: Version, text: string, manual: Option<string>, sum: Summary, steps: seq<Step>)
    requires IsEsxi(v) && GoodFile(text) && GoodManual(manual) && GoodSummary(sum)
    requires GoodSteps(v, steps)
    ensures GoodSummary(SummarizeAll(v, sum, steps))
    ensures Run(v, Reached(text, manual, sum), steps) ==
            Reached(text, manual, SummarizeAll(v, sum, steps))
    decreases |steps|
  {
    if steps != [] {
      assert GoodStep(v, steps[0]) && GoodSteps(v, steps[1..]);
      hide IsEsxi, GoodFile, GoodManual, GoodSummary, GoodStep, Reached, Apply, Summarize;
      StepReaches(v, text, manual, sum, steps[0]);
      SummaryStaysGood(v, sum, steps[0]);
      RunReaches(v, text, manual, Summarize(v, sum, steps[0]), steps[1..]);
    }
  }

  lemma NothingIsGood()
    ensures GoodSummary(NOTHING)
  {
  }

  /** A run of a freshly published version, stated outright. */
  lemma RunIsCanonical(v: Version, text: string, manual: Option<string>, steps: seq<Step>)
    requires IsEsxi(v) && GoodFile(text) && GoodManual(manual) && GoodSteps(v, steps)
    ensures
      var sum := SummarizeAll(v, NOTHING, steps);
      var end := Run(v, State(Some(text), manual, None), steps);
      && end.boot == Some(Canonical(text, sum.last, sum.base))
      && end.manual == CanonicalFile(manual, sum.base)
      && end.active == sum.active
  {
    hide IsEsxi, GoodFile, GoodManual, GoodSteps, GoodSummary, WithKs, Refreshed;
    NothingIsGood();
    RunReaches(v, text, manual, NOTHING, steps);
  }

  lemma KsTokensTell(a: string, b: string)
    ensures KsTokens(a) == KsTokens(b) <==> a == b
  {
    if a != "" && b != "" {
      SameText("ks=", a, b);
      assert KsTokens(a)[0] == "ks=" + a && KsTokens(b)[0] == "ks=" + b;
    }
  }

  /** What a file carries is told by any of its kernelopt lines. */
  lemma CarriesOne(file: string, a: seq<string>, b: seq<string>)
    requires Carries(file, a)
    ensures Carries(file, b) <==> a == b
  {
    hide SplitLines, IsKernelopt, KsOf, Tokens, ValueOf;
    var lines := SplitLines(file);
    var i :| 0 <= i < |lines| && IsKernelopt(lines[i]);
    assert lines[i] in lines;
  }

  /** The URL in the file is the one activated unless a refresh has lower-cased it since. */
  lemma StillTheUrl(w: Written)
    requires GoodWritten(w)
    ensures w.ks == w.url <==> !w.stale || LoweredUrl(w.url)
  {
    hide SteadyUrl, ProperUrl, LoweredKs, LoweredUrl;
    LoweredUrlMeans(w.url);
    LoweredKsSettles(w.url);
  }

  /** After any run with an activation or a clear in it, every kernelopt line of the boot
      file carries exactly one URL, or none once cleared. It is the URL of the active
      configuration exactly when no refresh came after the activation, or when the URL was
      in lower case already. */
  lemma RunTokens(v: Version, text: string, manual: Option<string>, steps: seq<Step>)
    requires IsEsxi(v) && GoodFile(text) && GoodManual(manual) && GoodSteps(v, steps)
    requires SummarizeAll(v, NOTHING, steps).last.Some?
    ensures
      var w := SummarizeAll(v, NOTHING, steps).last.value;
      var end := Run(v, State(Some(text), manual, None), steps);
      && end.boot.Some? && Carries(end.boot.value, KsTokens(w.ks))
      && (Carries(end.boot.value, KsTokens(w.url)) <==> !w.stale || LoweredUrl(w.url))
      && (end.active.None? <==> w.url == "")
  {
    var sum := SummarizeAll(v, NOTHING, steps);
    hide IsEsxi, GoodManual, GoodSteps, WithKs, Refreshed, GoodFile, SteadyUrl, LoweredUrl, SteadyBase,
         KsTokens, LoweredKs, ProperUrl, Carries, LeavesNothing, OneLine, NoSpaceIn;
    NothingIsGood();
    RunReaches(v, text, manual, NOTHING, steps);
    var w := sum.last.value;
    SteadyLeavesNothing(w.ks);
    WrittenCarries(if sum.base.Some? then Refreshed(text, sum.base.value) else text, w.ks);
    StillTheUrl(w);
    KsTokensTell(w.ks, w.url);
    CarriesOne(Canonical(text, sum.last, sum.base), KsTokens(w.ks), KsTokens(w.url));
  }

  lemma WrittenCarries(file: string, ks: string)
    requires NoSpaceIn(ks) && OneLine(ks)
    ensures Carries(WithKs(file, ks), KsTokens(ks))
  {
    hide SplitLines, IsKernelopt, KsOf, Tokens, ValueOf, NoSpaceIn, OneLine, WithKs, KsTokens;
    ActivatedTokens(file, ks);
  }
}
