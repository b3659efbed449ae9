/** The boot.cfg a version is published with: rewritten, then its paths normalised. The
    second step changes nothing the parser reads. */
module FinalCfg {
  import opened Text
  import opened Lines
  import opened ConfigLine
  import opened Kernelopt
  import opened Modules
  import opened Refresh
  import opened BootCfg
  import opened ReadBack
  import opened BootCfgLaws

  /** A path as the publication writes it. */
  predicate IsRelPath(path: string) { IsPath(path) && LowerRel(path) == path }

  predicate AreRelPaths(paths: seq<string>) {
    forall i :: 0 <= i < |paths| ==> IsRelPath(paths[i])
  }

  lemma RelPathsArePaths(paths: seq<string>)
    requires AreRelPaths(paths)
    ensures ArePaths(paths)
  {
    hide IsPath, LowerRel;
    forall i | 0 <= i < |paths| ensures IsPath(paths[i]) { assert IsRelPath(paths[i]); }
  }

  lemma RelPathsStay(paths: seq<string>)
    requires AreRelPaths(paths)
    ensures LowerPaths(paths) == paths
  {
    hide IsPath, LowerRel;
    forall i | 0 <= i < |paths| ensures LowerPaths(paths)[i] == paths[i] { assert IsRelPath(paths[i]); }
  }

  lemma RelPathsPrefix(paths: seq<string>, n: nat)
    requires AreRelPaths(paths) && n <= |paths|
    ensures AreRelPaths(paths[..n]) && AreRelPaths(paths[n..])
  {
    hide IsRelPath;
  }

  /** The paths an assignment names are in their final form. */
  predicate Ready(a: Assignment) {
    match KindOf(a.key)
    case KernelKey => IsRelPath(a.value)
    case ModulesKey => a.value == JoinModules(Segments(a.value)) && AreRelPaths(Segments(a.value))
    case ModuleKey => a.value == "" || IsRelPath(a.value)
    case _ => true
  }

  predicate AllReady(items: seq<Assignment>) {
    forall i :: 0 <= i < |items| ==> Ready(items[i])
  }

  lemma RedirectReady(a: Assignment, prefix: string, kernel: string, left: seq<string>)
    requires Uses(a) <= |left| && AreRelPaths(left) && IsRelPath(kernel)
    ensures Ready(Redirect(a, prefix, kernel, left))
  {
    KindsOfKeys();
    hide KindOf, Segments, JoinModules, IsRelPath, AreRelPaths, ModulesOf, Normalize;
    match KindOf(a.key)
    case ModulesKey =>
      RelPathsPrefix(left, Uses(a));
      RelPathsArePaths(left[..Uses(a)]);
      PathsAreClean(left[..Uses(a)]);
      SegmentsOfJoin(left[..Uses(a)]);
    case ModuleKey =>
      if a.value != "" {
        ModuleUsesOne(a);
        FirstRelPath(left);
      }
    case _ =>
  }

  lemma FirstRelPath(left: seq<string>)
    requires left != [] && AreRelPaths(left)
    ensures IsRelPath(left[0])
  {
    hide IsRelPath;
  }

  lemma {:induction false} RedirectAllReady(items: seq<Assignment>, prefix: string, kernel: string,
                                            left: seq<string>)
    requires |ModuleList(items)| <= |left| && AreRelPaths(left) && IsRelPath(kernel)
    ensures AllReady(RedirectAll(items, prefix, kernel, left))
    decreases |items|
  {
    if items != [] {
      var a, rest := items[0], items[1..];
      hide Redirect, ModulesOf, IsRelPath, AreRelPaths, Uses, Ready;
      assert items == [a] + rest;
      ModuleCons(a, rest);
      RelPathsPrefix(left, Uses(a));
      RedirectReady(a, prefix, kernel, left);
      RedirectAllReady(rest, prefix, kernel, left[Uses(a)..]);
    }
  }

  lemma ExpectedReady(items: seq<Assignment>, prefix: string, kernel: string, paths: seq<string>)
    requires |ModuleList(items)| <= |paths| && AreRelPaths(paths) && IsRelPath(kernel)
    ensures AllReady(Expected(items, prefix, kernel, paths))
  {
    KindsOfKeys();
    assert Ready(Assignment(PREFIX, prefix));
    hide Ready, AreRelPaths, IsRelPath, RedirectAll, AnyPrefixKey;
    RedirectAllReady(items, prefix, kernel, paths);
  }

  // ---- One line ---------------------------------------------------------

  /** What the path normalisation makes of a line that assigns something. */
  function Normalized(a: Assignment, line: string): string {
    match KindOf(a.key)
    case KernelKey => KERNEL + "=" + LowerRel(a.value)
    case ModulesKey => MODULES + "=" + JoinModules(LowerPaths(Segments(a.value)))
    case ModuleKey => MODULE + "=" + if a.value == "" then "" else LowerRel(a.value)
    case _ => line
  }

  lemma ModuleAlone()
    ensures "module=" + "" == "module="
  {
  }

  lemma NormalizeIs(line: string, a: Assignment)
    requires Trimmed(line) && NoBom(line) && Read(line) == Some(a)
    ensures NormalizeLine(line) == Normalized(a, line)
  {
    TrimBare(IsSpace, line);
    NoBomBared(line);
    BareLine(line);
    KeyLiterals();
    ModuleAlone();
    hide Bared, Matches, KeyOf, ValueOf, IsComment, Segments, LowerRel, Strip, LeftTrimmed, KindOf, JoinModules,
         Trimmed, LowerPaths;
    PatternsAgree(line);
  }

  lemma RelPathNeat(name: string, path: string)
    requires IsHead(name) && IsRelPath(path)
    ensures IsNeat(name + "=" + path) && Read(name + "=" + path) == Some(Assignment(name, path))
    ensures !IsContinued(name + "=" + path)
  {
    hide IsHead, All, NoDashes, Trimmed, Read, IsNeat, LowerRel, IsContinued;
    KeyNeat(name, path);
    ContinuedValue(name, path);
  }

  lemma EmptyNeat(name: string)
    requires IsHead(name)
    ensures IsNeat(name + "=" + "") && Read(name + "=" + "") == Some(Assignment(name, ""))
    ensures !IsContinued(name + "=" + "")
  {
    EmptyAll(NotBreak);
    assert !IsContinued("");
    hide IsHead, All, Read, IsNeat, IsContinued;
    KeyNeat(name, "");
    ContinuedValue(name, "");
  }

  lemma RelPathsNeat(paths: seq<string>)
    requires AreRelPaths(paths)
    ensures IsNeat(MODULES + "=" + JoinModules(paths)) && !IsContinued(MODULES + "=" + JoinModules(paths))
    ensures Read(MODULES + "=" + JoinModules(paths)) == Some(Assignment(MODULES, JoinModules(paths)))
  {
    Heads();
    hide IsHead, All, NoDashes, Trimmed, Read, JoinModules, IsNeat, AreRelPaths, IsContinued;
    RelPathsArePaths(paths);
    PathsJoin(paths);
    CleanJoin(paths);
    KeyNeat(MODULES, JoinModules(paths));
    ContinuedValue(MODULES, JoinModules(paths));
  }

  /** Normalising a ready line leaves what it assigns and starts no continuation. */
  lemma NormalizeReads(line: string, a: Assignment)
    requires IsNeat(line) && NoBom(line) && Read(line) == Some(a) && Ready(a) && !IsContinued(line)
    ensures IsNeat(NormalizeLine(line)) && Read(NormalizeLine(line)) == Some(a)
    ensures !IsContinued(NormalizeLine(line))
  {
    NormalizeIs(line, a);
    Heads();
    KindIs(a.key);
    hide NormalizeLine, KindOf, IsRelPath, AreRelPaths, IsHead, IsNeat, IsContinued, Read, Segments, JoinModules,
         LowerRel, LowerPaths, NoBom;
    match KindOf(a.key)
    case KernelKey =>
      assert LowerRel(a.value) == a.value by { SameRel(a.value); }
      RelPathNeat(KERNEL, a.value);
    case ModulesKey =>
      RelPathsStay(Segments(a.value));
      RelPathsNeat(Segments(a.value));
    case ModuleKey =>
      if a.value == "" {
        EmptyNeat(MODULE);
      } else {
        assert LowerRel(a.value) == a.value by { SameRel(a.value); }
        RelPathNeat(MODULE, a.value);
      }
    case _ =>
  }

  lemma SameRel(path: string)
    requires IsRelPath(path)
    ensures LowerRel(path) == path
  {
  }

  // ---- All the lines ----------------------------------------------------

  /** Lines that the rewriter can have written. */
  predicate AreReady(lines: seq<string>) {
    && AreNeat(lines) && BomFree(lines) && NoneContinued(lines) && AllReady(ReadLines(lines))
  }

  lemma ReadyHead(line: string, rest: seq<string>) returns (a: Assignment)
    requires AreReady([line] + rest)
    ensures IsNeat(line) && NoBom(line) && Read(line) == Some(a) && Ready(a) && !IsContinued(line)
    ensures AreReady(rest) && ReadLines([line] + rest) == [a] + ReadLines(rest)
  {
    hide KeyOf, ValueOf, IsComment, Strip, All, Trimmed;
    var lines := [line] + rest;
    assert IsNeat(lines[0]) && NoBom(lines[0]);
    assert Read(line).Some?;
    a := Read(line).value;
    hide IsNeat, NoBom, IsContinued, Read, Ready;
    ReadCons(line, rest);
    hide ReadLines;
    var items := ReadLines(lines);
    assert items == [a] + ReadLines(rest);
    assert Ready(items[0]);
    forall i | 0 <= i < |rest| ensures IsNeat(rest[i]) && NoBom(rest[i]) && !IsContinued(rest[i]) {
      assert lines[i + 1] == rest[i];
    }
    forall i | 0 <= i < |ReadLines(rest)| ensures Ready(ReadLines(rest)[i]) {
      assert items[i + 1] == ReadLines(rest)[i];
    }
  }

  lemma MapCons(line: string, rest: seq<string>)
    ensures MapLines(NormalizeLineOf(), [line] + rest) ==
            [NormalizeLine(line)] + MapLines(NormalizeLineOf(), rest)
  {
    hide NormalizeLine;
  }

  lemma NormalizeHead(line: string, a: Assignment, rest: seq<string>)
    requires IsNeat(line) && NoBom(line) && Read(line) == Some(a) && Ready(a) && !IsContinued(line)
    requires AreNeat(rest) && NoneContinued(rest)
    ensures AreNeat([NormalizeLine(line)] + rest) && NoneContinued([NormalizeLine(line)] + rest)
    ensures ReadLines([NormalizeLine(line)] + rest) == [a] + ReadLines(rest)
  {
    hide NormalizeLine, IsNeat, NoBom, Read, Ready, IsContinued, ReadLines, AreNeat, NoneContinued;
    NormalizeReads(line, a);
    NeatCons(NormalizeLine(line), rest);
    NoneContinuedCons(NormalizeLine(line), rest);
    ReadCons(NormalizeLine(line), rest);
  }

  lemma {:induction false} NormalizeAllReads(lines: seq<string>)
    requires AreReady(lines)
    ensures
      var out := MapLines(NormalizeLineOf(), lines);
      AreNeat(out) && NoneContinued(out) && ReadLines(out) == ReadLines(lines)
    decreases |lines|
  {
    hide AreReady, NormalizeLine, IsNeat, NoBom, Read, Ready, IsContinued, ReadLines, AreNeat, NoneContinued,
         MapLines;
    if lines == [] {
      NormalizeNone();
    } else {
      var line, rest := lines[0], lines[1..];
      assert lines == [line] + rest;
      var a := ReadyHead(line, rest);
      NormalizeAllReads(rest);
      MapCons(line, rest);
      NormalizeHead(line, a, MapLines(NormalizeLineOf(), rest));
    }
  }

  lemma NormalizeNone()
    ensures MapLines(NormalizeLineOf(), []) == [] && AreNeat([]) && NoneContinued([])
  {
  }

  lemma HeaderFirst(rest: string)
    ensures NormalizeLine("# " + rest + ".") == "# " + rest + "."
  {
    var line := "# " + rest + ".";
    assert line[0] == '#' && line[|line| - 1] == '.';
    TrimBare(IsSpace, line);
    EmptyAll(IsBom);
    hide All, Trim;
    assert "" + line == line;
    SpanOf(IsBom, "", line);
  }

  lemma HeaderStays()
    ensures NormalizeLine(HEADER) == HEADER
  {
    hide NormalizeLine, TITLE, SUBTITLE, ENDING;
    HeaderFirst(TITLE + SUBTITLE + ENDING);
  }

  /** Normalising a file the rewriter wrote leaves all it assigns. */
  lemma NormalizeFileReads(body: seq<string>)
    requires AreReady(body)
    ensures Assignments(NormalizePaths(Unlines([HEADER] + body))) == ReadLines(body)
    ensures Assignments(Unlines([HEADER] + body)) == ReadLines(body)
  {
    assert AreNeat(body) && NoneContinued(body);
    hide AreReady, NormalizeLine, Read, ReadLines, Unlines, HEADER, IsNeat, AreNeat, NoneContinued, NoBreaks, All,
         Assignments, SplitLines, MapLines;
    HeadedReadsBack(body);
    NormalizedFile(body);
    NormalizeAllReads(body);
    HeadedReadsBack(MapLines(NormalizeLineOf(), body));
  }

  lemma NormalizedFile(body: seq<string>)
    requires AreNeat(body)
    ensures NormalizePaths(Unlines([HEADER] + body)) ==
            Unlines([HEADER] + MapLines(NormalizeLineOf(), body))
  {
    hide NormalizeLine, Unlines, HEADER, AreNeat, NoBreaks, All, SplitLines, MapLines, Read, IsContinued;
    HeaderLine();
    HeaderStays();
    NeatNoBreaks(body);
    NoBreaksCons(HEADER, body);
    SplitUnlines([HEADER] + body);
    MapCons(HEADER, body);
  }

  lemma BodyIsReady(body: seq<string>, out: seq<string>, prefix: string)
    requires IsHttpPrefix(prefix) && BomFree(out)
    requires body == out || body == ["prefix=" + prefix] + out
    ensures BomFree(body)
  {
    KeyLiterals();
    hide BomFree, NoBom, IsHttpPrefix;
    PrefixNoBom(prefix);
    BomFreeCons(PREFIX + "=" + prefix, out);
  }

  /** The published boot.cfg assigns what the rewritten one does: the assignments of the lines
      that stand for the source, with their paths redirected. */
  lemma PublishedFrom(raw: string, lines: seq<string>, httpPrefix: string, kernel: string, paths: seq<string>)
    requires BomFree(lines) && NoBreaks(lines) && NoneContinues(lines)
    requires StandFor(lines, raw, FullPrefix(httpPrefix), kernel, paths) && |ModuleList(ReadLines(lines))| == |paths|
    requires IsHttpPrefix(FullPrefix(httpPrefix)) && IsRelPath(kernel) && AreRelPaths(paths)
    ensures
      var r := Rewrite(raw, httpPrefix, kernel, paths);
      r.Ok? && Assignments(NormalizePaths(r.value)) ==
               Expected(ReadLines(lines), FullPrefix(httpPrefix), kernel, paths)
  {
    var items, prefix := ReadLines(lines), FullPrefix(httpPrefix);
    assert IsPath(kernel);
    hide Rewrite, RewriteLines, BomFree, ModuleList, Assignments, IsPath, ArePaths, IsHttpPrefix, FullPrefix,
         NoneContinued, NoneContinues, AreNeat, Expected, HEADER, Unlines, ReadLines, AllReady, StandFor,
         IsRelPath, AreRelPaths, NormalizePaths, NoBreaks;
    RelPathsArePaths(paths);
    var body := RewriteBody(raw, lines, httpPrefix, kernel, paths);
    LinesNoBom(lines, prefix, kernel, paths);
    BodyIsReady(body, RewriteLines(lines, prefix, kernel, paths).value.out, prefix);
    ExpectedReady(items, prefix, kernel, paths);
    NormalizeFileReads(body);
  }

  /** For a boot.cfg without marks on assigning lines and without a dangling backslash: the
      source's assignments with their paths redirected. */
  lemma PublishedAssignments(raw: string, httpPrefix: string, kernel: string, paths: seq<string>)
    requires BomFree(LogicalLines(raw)) && NoneContinues(LogicalLines(raw))
    requires |ModuleList(Assignments(raw))| == |paths|
    requires IsHttpPrefix(FullPrefix(httpPrefix)) && IsRelPath(kernel) && AreRelPaths(paths)
    ensures
      var r := Rewrite(raw, httpPrefix, kernel, paths);
      r.Ok? && Assignments(NormalizePaths(r.value)) ==
               Expected(Assignments(raw), FullPrefix(httpPrefix), kernel, paths)
  {
    hide Rewrite, BomFree, ModuleList, Assignments, IsHttpPrefix, FullPrefix, NoneContinues, Expected, LogicalLines,
         ReadLines, IsRelPath, AreRelPaths, NormalizePaths, StandFor, NoBreaks;
    LogicalStands(raw, FullPrefix(httpPrefix), kernel, paths);
    PublishedFrom(raw, LogicalLines(raw), httpPrefix, kernel, paths);
  }
}
