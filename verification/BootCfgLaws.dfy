/** The rewritten boot.cfg means what the source meant: the same keys, the given kernel
    and prefix, and the resolved paths in the places of the modules. */
module BootCfgLaws {
  import opened Text
  import opened ConfigLine
  import opened Kernelopt
  import opened Kickstart
  import opened KickstartLaws
  import opened Modules
  import opened Refresh
  import opened RefreshLaws
  import opened RefreshText
  import opened CommuteLine
  import opened BootCfg
  import opened ReadBack

  // ---- What each assignment should become -------------------------------

  function Uses(a: Assignment): nat { |ModulesOf(a)| }

  /** The assignment the rewritten file makes in place of a, given the unused paths. */
  function Redirect(a: Assignment, prefix: string, kernel: string, left: seq<string>): Assignment
    requires Uses(a) <= |left|
  {
    match KindOf(a.key)
    case PrefixKey => Assignment(PREFIX, prefix)
    case KernelKey => Assignment(KERNEL, kernel)
    case OptionKey => Assignment(KERNELOPT, Normalize(a.value))
    case ModulesKey => Assignment(MODULES, JoinModules(left[..Uses(a)]))
    case ModuleKey => if a.value == "" then a else Assignment(MODULE, left[0])
    case PlainKey => a
  }

  function RedirectAll(items: seq<Assignment>, prefix: string, kernel: string, left: seq<string>)
    : seq<Assignment>
    requires |ModuleList(items)| <= |left|
    decreases |items|
  {
    if items == [] then []
    else
      [Redirect(items[0], prefix, kernel, left)]
      + RedirectAll(items[1..], prefix, kernel, left[Uses(items[0])..])
  }

  /** A path that can stand in a boot.cfg: clean, on one line, not continued. */
  predicate IsPath(path: string) { IsClean(path) && OneLine(path) && !IsContinued(path) }

  predicate ArePaths(paths: seq<string>) {
    forall i :: 0 <= i < |paths| ==> IsPath(paths[i])
  }

  /** A prefix in the form the rewriter writes it. */
  predicate IsHttpPrefix(prefix: string) {
    Trimmed(prefix) && OneLine(prefix) && !IsContinued(prefix)
  }

  /** A line that assigns something does not start with a byte order mark. */
  predicate NoBom(line: string) { Read(line).Some? ==> Strip(line) != "" && Strip(line)[0] != BOM }

  /** No line that assigns something starts with a byte order mark. */
  predicate BomFree(lines: seq<string>) {
    forall i :: 0 <= i < |lines| ==> NoBom(lines[i])
  }

  // ---- Recognising lines ------------------------------------------------

  lemma BareLine(line: string)
    ensures LeftTrimmed(Strip(line)) && Strip(Strip(line)) == Strip(line)
  {
    TrimIsBare(IsSpace, line);
    TrimBare(IsSpace, Strip(line));
  }

  /** The rewriter's patterns and the parser's key agree on a stripped line. */
  lemma PatternsAgree(s: string)
    requires LeftTrimmed(s)
    ensures Matches(PREFIX, s) || Matches(PREFIX_HTTP, s) <==>
            '=' in s && KindOf(KeyOf(s)) == PrefixKey
    ensures Matches(KERNEL, s) <==> '=' in s && KindOf(KeyOf(s)) == KernelKey
    ensures Matches(KERNELOPT, s) <==> '=' in s && KindOf(KeyOf(s)) == OptionKey
    ensures Matches(MODULES, s) <==> '=' in s && KindOf(KeyOf(s)) == ModulesKey
    ensures Matches(MODULE, s) <==> '=' in s && KindOf(KeyOf(s)) == ModuleKey
  {
    Names();
    hide IsName, Matches, KeyOf, LeftTrimmed, KindOf;
    KeyAgrees(PREFIX, s);
    KeyAgrees(PREFIX_HTTP, s);
    KeyAgrees(KERNEL, s);
    KeyAgrees(KERNELOPT, s);
    KeyAgrees(MODULES, s);
    KeyAgrees(MODULE, s);
    KindIs(KeyOf(s));
  }

  lemma KindIs(key: string)
    ensures KindOf(key) == PrefixKey <==> key == PREFIX || key == PREFIX_HTTP
    ensures KindOf(key) == KernelKey <==> key == KERNEL
    ensures KindOf(key) == OptionKey <==> key == KERNELOPT
    ensures KindOf(key) == ModulesKey <==> key == MODULES
    ensures KindOf(key) == ModuleKey <==> key == MODULE
  {
    NamesDiffer();
  }

  lemma NamesDiffer()
    ensures PREFIX != KERNEL && PREFIX != KERNELOPT && PREFIX != MODULES && PREFIX != MODULE
    ensures PREFIX_HTTP != KERNEL && PREFIX_HTTP != KERNELOPT && PREFIX_HTTP != MODULES
    ensures PREFIX_HTTP != MODULE && PREFIX != PREFIX_HTTP
    ensures KERNEL != KERNELOPT && KERNEL != MODULES && KERNEL != MODULE
    ensures KERNELOPT != MODULES && KERNELOPT != MODULE && MODULES != MODULE
  {
    assert |PREFIX| == 6 && |PREFIX_HTTP| == 11 && |KERNEL| == 6 && |KERNELOPT| == 9;
    assert |MODULES| == 7 && |MODULE| == 6;
    assert PREFIX[0] == 'p' && KERNEL[0] == 'k' && MODULE[0] == 'm';
  }

  /** What the rewriter makes of a line that assigns something. */
  function WrittenFor(a: Assignment, s: string, prefix: string, kernel: string, left: seq<string>)
    : string
    requires Uses(a) <= |left|
  {
    match KindOf(a.key)
    case PrefixKey => PREFIX + "=" + prefix
    case KernelKey => KERNEL + "=" + kernel
    case OptionKey => KERNELOPT + "=" + Normalize(a.value)
    case ModulesKey => MODULES + "=" + JoinModules(left[..Uses(a)])
    case ModuleKey => if a.value == "" then s else MODULE + "=" + left[0]
    case PlainKey => s
  }

  lemma KeyLiterals()
    ensures PREFIX + "=" == "prefix=" && KERNEL + "=" == "kernel=" && KERNELOPT + "=" == "kernelopt="
    ensures MODULES + "=" == "modules=" && MODULE + "=" == "module="
  {
  }

  /** One line of the source, seen by the parser and by the rewriter. */
  lemma RewriteReads(line: string, prefix: string, kernel: string, left: seq<string>)
    requires Bared(line) == Strip(line)
    ensures
      match Read(line)
      case None => RewriteLine(line, prefix, kernel, left) == Dropped
      case Some(a) =>
        if Uses(a) > |left| then RewriteLine(line, prefix, kernel, left).Refused?
        else RewriteLine(line, prefix, kernel, left) ==
             Written(WrittenFor(a, Strip(line), prefix, kernel, left), Uses(a))
  {
    var s := Strip(line);
    hide Bared, Matches, KeyOf, ValueOf, IsComment, Segments, Normalize, Strip, LeftTrimmed, KindOf,
         JoinModules;
    KeyLiterals();
    BareLine(line);
    PatternsAgree(s);
  }

  lemma PrefixReads(line: string)
    requires Bared(line) == Strip(line)
    ensures WritesPrefix(line) <==>
            Read(line).Some? && KindOf(Read(line).value.key) == PrefixKey
  {
    var s := Strip(line);
    hide Bared, Matches, KeyOf, ValueOf, IsComment, Strip, LeftTrimmed, KindOf;
    BareLine(line);
    PatternsAgree(s);
  }

  // ---- Reading the written lines ----------------------------------------

  /** A written line assigns its value. */
  lemma ReadWritten(name: string, x: string)
    requires IsName(name) && name[0] != '#' && name[0] != BOM && Trimmed(x)
    ensures Read(name + "=" + x) == Some(Assignment(name, x)) && Trimmed(name + "=" + x)
  {
    var line := name + "=" + x;
    hide IsName, IsComment, KeyOf, ValueOf;
    WrittenBared(name, x);
    WrittenLine(name, x);
    TrimBare(IsSpace, x);
    WrittenTrimmed(name, x);
    TrimBare(IsSpace, line);
    NameFirst(name, x);
  }

  lemma NameFirst(name: string, x: string)
    requires IsName(name) && name[0] != '#'
    ensures name + "=" + x != "" && !IsComment(name + "=" + x)
  {
  }

  lemma WrittenTrimmed(name: string, x: string)
    requires IsName(name) && Trimmed(x)
    ensures Trimmed(name + "=" + x)
  {
    var line := name + "=" + x;
    assert line[0] == name[0];
    assert line[|line| - 1] == if x == "" then '=' else x[|x| - 1];
  }

  /** A kept line assigns what it assigned, and is continued as it was. */
  lemma ReadKept(line: string)
    ensures Read(Strip(line)) == Read(line) && Trimmed(Strip(line))
  {
    BareLine(line);
    TrimIsBare(IsSpace, line);
  }

  lemma {:induction false} CleanJoin(parts: seq<string>)
    requires AreClean(parts)
    ensures Trimmed(JoinModules(parts)) && (parts != [] ==> JoinModules(parts) != "")
  {
    if parts != [] {
      assert IsClean(parts[0]) && AreClean(parts[1..]);
      hide NoDashes, AreClean;
      CleanJoin(parts[1..]);
      if |parts| > 1 {
        var rest := JoinModules(parts[1..]);
        var s := JoinModules(parts);
        assert s == parts[0] + SEPARATOR + rest;
        assert s[0] == parts[0][0] && s[|s| - 1] == rest[|rest| - 1];
      }
    }
  }

  lemma {:induction false} PathsJoin(parts: seq<string>)
    requires ArePaths(parts)
    ensures AreClean(parts) && OneLine(JoinModules(parts)) && !IsContinued(JoinModules(parts))
  {
    PathsAreClean(parts);
    KeysOneLine();
    hide All, NoDashes, Trimmed;
    forall i | 0 <= i < |parts| ensures OneLine(parts[i]) { assert IsPath(parts[i]); }
    JoinAll(NotBreak, SEPARATOR, parts);
    if parts != [] {
      var front, last := parts[..|parts| - 1], parts[|parts| - 1];
      assert parts == front + [last];
      assert IsPath(last);
      JoinLast(front, last);
    }
  }

  lemma PathsAreClean(parts: seq<string>)
    requires ArePaths(parts)
    ensures AreClean(parts)
  {
    hide All, NoDashes, Trimmed;
    forall i | 0 <= i < |parts| ensures IsClean(parts[i]) { assert IsPath(parts[i]); }
  }

  lemma JoinLast(front: seq<string>, last: string)
    requires last != ""
    ensures JoinModules(front + [last]) != ""
    ensures JoinModules(front + [last])[|JoinModules(front + [last])| - 1] == last[|last| - 1]
  {
    if front == [] {
      assert front + [last] == [last];
    } else {
      JoinAppend(SEPARATOR, front, last);
    }
  }

  lemma HeadsOneLine()
    ensures OneLine("prefix=") && OneLine("kernel=") && OneLine("kernelopt=") && OneLine("modules=")
    ensures OneLine("module=") && OneLine("")
  {
  }

  /** A key that can start a written line. */
  predicate IsHead(name: string) {
    IsName(name) && name[0] != '#' && name[0] != BOM && OneLine(name + "=")
  }

  lemma Heads()
    ensures IsHead(PREFIX) && IsHead(KERNEL) && IsHead(KERNELOPT) && IsHead(MODULES) && IsHead(MODULE)
  {
    Names();
    HeadsOneLine();
    hide IsName, All;
    KeyLiterals();
  }

  lemma KeyNeat(name: string, x: string)
    requires IsHead(name) && Trimmed(x) && OneLine(x)
    ensures IsNeat(name + "=" + x) && Read(name + "=" + x) == Some(Assignment(name, x))
  {
    hide IsName, All, Trimmed, Read;
    ReadWritten(name, x);
    AllConcat(NotBreak, name + "=", x);
  }

  lemma NormalizeNeat(kopt: string)
    ensures Trimmed(Normalize(kopt)) && OneLine(Normalize(kopt))
  {
    hide NetworkTokens, Strip, All, Trimmed;
    NormalizeIsTrimmed(kopt);
    StripIsTrimmed(Normalize(kopt));
    OptionOneLine(kopt);
    AllConcat(NotBreak, "kernelopt=", Normalize(kopt));
  }

  lemma KeptNeat(line: string)
    requires Read(line).Some? && OneLine(line)
    ensures IsNeat(Strip(line)) && Read(Strip(line)) == Read(line)
  {
    hide Read, Trimmed, All;
    ReadKept(line);
    TrimKeepsAll(NotBreak, IsSpace, line);
  }

  lemma PathsWritten(a: Assignment, left: seq<string>)
    requires Uses(a) <= |left| && ArePaths(left)
    ensures
      var out := MODULES + "=" + JoinModules(left[..Uses(a)]);
      IsNeat(out) && Read(out) == Some(Assignment(MODULES, JoinModules(left[..Uses(a)])))
  {
    Heads();
    hide IsHead, All, NoDashes, Trimmed, Read, JoinModules, IsNeat, Uses;
    PathsPrefix(left, Uses(a));
    PathsJoin(left[..Uses(a)]);
    CleanJoin(left[..Uses(a)]);
    KeyNeat(MODULES, JoinModules(left[..Uses(a)]));
  }

  lemma ModuleWritten(a: Assignment, left: seq<string>)
    requires KindOf(a.key) == ModuleKey && a.value != "" && Uses(a) <= |left| && ArePaths(left)
    ensures left != []
    ensures IsNeat(MODULE + "=" + left[0])
    ensures Read(MODULE + "=" + left[0]) == Some(Assignment(MODULE, left[0]))
  {
    Heads();
    ModuleUsesOne(a);
    assert IsPath(left[0]);
    hide IsHead, All, NoDashes, Read, IsNeat, KindOf;
    KeyNeat(MODULE, left[0]);
  }

  lemma OptionWritten(value: string)
    ensures
      var out := KERNELOPT + "=" + Normalize(value);
      IsNeat(out) && Read(out) == Some(Assignment(KERNELOPT, Normalize(value)))
  {
    Heads();
    hide IsHead, Normalize, All, Trimmed, Read, IsNeat;
    NormalizeNeat(value);
    KeyNeat(KERNELOPT, Normalize(value));
  }

  lemma PrefixWritten(prefix: string)
    requires IsHttpPrefix(prefix)
    ensures
      var out := PREFIX + "=" + prefix;
      IsNeat(out) && Read(out) == Some(Assignment(PREFIX, prefix))
  {
    Heads();
    hide IsHead, All, Trimmed, Read, IsNeat;
    KeyNeat(PREFIX, prefix);
  }

  lemma KernelWritten(kernel: string)
    requires IsPath(kernel)
    ensures
      var out := KERNEL + "=" + kernel;
      IsNeat(out) && Read(out) == Some(Assignment(KERNEL, kernel))
  {
    Heads();
    hide IsHead, All, NoDashes, Trimmed, Read, IsNeat;
    KeyNeat(KERNEL, kernel);
  }

  /** The rewritten line is neat and assigns what it should. */
  lemma WrittenReads(line: string, a: Assignment, prefix: string, kernel: string, left: seq<string>)
    requires Read(line) == Some(a) && Uses(a) <= |left| && OneLine(line)
    requires IsHttpPrefix(prefix) && IsPath(kernel) && ArePaths(left)
    ensures
      var out := WrittenFor(a, Strip(line), prefix, kernel, left);
      IsNeat(out) && Read(out) == Some(Redirect(a, prefix, kernel, left))
  {
    hide Normalize, Strip, All, Read, JoinModules, KindOf, IsNeat, Uses, IsPath, ArePaths, IsHttpPrefix;
    match KindOf(a.key)
    case PrefixKey => PrefixWritten(prefix);
    case KernelKey => KernelWritten(kernel);
    case OptionKey => OptionWritten(a.value);
    case ModulesKey => PathsWritten(a, left);
    case ModuleKey =>
      KeptNeat(line);
      if a.value != "" { ModuleWritten(a, left); }
    case PlainKey => KeptNeat(line);
  }

  lemma ModuleUsesOne(a: Assignment)
    requires KindOf(a.key) == ModuleKey && a.value != ""
    ensures Uses(a) == 1
  {
  }

  lemma PathsPrefix(paths: seq<string>, n: nat)
    requires ArePaths(paths) && n <= |paths|
    ensures ArePaths(paths[..n]) && ArePaths(paths[n..])
  {
    hide IsPath;
  }

  // ---- All the lines ----------------------------------------------------

  lemma NoBomBared(line: string)
    requires NoBom(line) && Read(line).Some?
    ensures Bared(line) == Strip(line)
  {
    var s := Strip(line);
    hide Strip, KeyOf, ValueOf, IsComment;
    EmptyAll(IsBom);
    assert "" + s == s;
    SpanOf(IsBom, "", s);
  }

  lemma ModuleCons(a: Assignment, rest: seq<Assignment>)
    ensures |ModuleList([a] + rest)| == Uses(a) + |ModuleList(rest)|
  {
    hide ModulesOf;
    assert ([a] + rest)[1..] == rest;
  }

  lemma RedirectCons(a: Assignment, rest: seq<Assignment>, prefix: string, kernel: string,
                     left: seq<string>)
    requires Uses(a) + |ModuleList(rest)| <= |left|
    ensures |ModuleList([a] + rest)| <= |left|
    ensures RedirectAll([a] + rest, prefix, kernel, left) ==
            [Redirect(a, prefix, kernel, left)] + RedirectAll(rest, prefix, kernel, left[Uses(a)..])
  {
    ModuleCons(a, rest);
    hide Redirect, ModuleList, Uses;
    assert ([a] + rest)[1..] == rest;
  }

  lemma RewriteCons(line: string, rest: seq<string>, prefix: string, kernel: string, left: seq<string>)
    ensures RewriteLines([line] + rest, prefix, kernel, left) ==
            Following(RewriteLine(line, prefix, kernel, left), rest, prefix, kernel, left)
  {
    hide RewriteLine, PutBefore;
    assert ([line] + rest)[1..] == rest;
  }

  lemma ReadNone(line: string, rest: seq<string>)
    requires Read(line).None?
    ensures ReadLines([line] + rest) == ReadLines(rest)
  {
    hide Read;
    ReadCons(line, rest);
    assert [] + ReadLines(rest) == ReadLines(rest);
  }

  lemma MatchesHasEquals(name: string, s: string)
    requires Matches(name, s)
    ensures '=' in s
  {
    var rest := TrimLeft(IsSpace, s[|name|..]);
    assert rest[0] in s;
  }

  /** Byte order marks or not, the rewriter drops a line that assigns nothing. */
  lemma DroppedLine(line: string, prefix: string, kernel: string, left: seq<string>)
    requires Read(line).None?
    ensures RewriteLine(line, prefix, kernel, left) == Dropped && !WritesPrefix(line)
  {
    var s, b := Strip(line), Bared(line);
    assert s != "" && IsComment(s) ==> b == s by {
      if s != "" && IsComment(s) {
        EmptyAll(IsBom);
        assert "" + s == s;
        SpanOf(IsBom, "", s);
      }
    }
    assert '=' in b ==> '=' in s;
    if b != "" && !IsComment(b) {
      hide Matches, Strip, KeyOf, ValueOf, Bared, IsComment, Segments;
      assert '=' !in b;
      if Matches(PREFIX, b) { MatchesHasEquals(PREFIX, b); }
      if Matches(PREFIX_HTTP, b) { MatchesHasEquals(PREFIX_HTTP, b); }
      if Matches(KERNEL, b) { MatchesHasEquals(KERNEL, b); }
      if Matches(KERNELOPT, b) { MatchesHasEquals(KERNELOPT, b); }
      if Matches(MODULES, b) { MatchesHasEquals(MODULES, b); }
      if Matches(MODULE, b) { MatchesHasEquals(MODULE, b); }
    }
  }

  /** A line that assigns nothing is dropped. */
  lemma SkipLine(line: string, rest: seq<string>, prefix: string, kernel: string, left: seq<string>)
    requires Read(line).None?
    ensures ReadLines([line] + rest) == ReadLines(rest)
    ensures RewriteLines([line] + rest, prefix, kernel, left) == RewriteLines(rest, prefix, kernel, left)
  {
    hide ReadLines, RewriteLine, RewriteLines, Read, WritesPrefix;
    ReadNone(line, rest);
    RewriteCons(line, rest, prefix, kernel, left);
    DroppedLine(line, prefix, kernel, left);
  }

  /** A line that assigns something is written while the paths last. */
  lemma TakeLine(line: string, a: Assignment, rest: seq<string>, prefix: string, kernel: string,
                 left: seq<string>)
    requires NoBom(line) && Read(line) == Some(a)
    ensures ReadLines([line] + rest) == [a] + ReadLines(rest)
    ensures Uses(a) > |left| ==> RewriteLines([line] + rest, prefix, kernel, left).Err?
    ensures Uses(a) <= |left| ==>
            RewriteLines([line] + rest, prefix, kernel, left) ==
            PutBefore(WrittenFor(a, Strip(line), prefix, kernel, left),
                    RewriteLines(rest, prefix, kernel, left[Uses(a)..]))
  {
    NoBomBared(line);
    hide ReadLines, RewriteLine, RewriteLines, Read, Bared, Strip, Uses, WrittenFor, PutBefore;
    ReadCons(line, rest);
    RewriteCons(line, rest, prefix, kernel, left);
    RewriteReads(line, prefix, kernel, left);
  }

  lemma HeadAndTail(lines: seq<string>) returns (line: string, rest: seq<string>)
    requires lines != [] && BomFree(lines)
    ensures lines == [line] + rest && NoBom(line) && BomFree(rest)
    ensures NoBreaks(lines) ==> OneLine(line) && NoBreaks(rest)
  {
    hide NoBom, All;
    line, rest := lines[0], lines[1..];
  }

  /** Rewriting succeeds when there are n paths, and leaves the others. */
  ghost predicate TakesPaths(n: nat, left: seq<string>, r: Result<Pass, RewriteError>) {
    && (r.Ok? <==> n <= |left|)
    && (r.Ok? ==> n <= |left| && r.value.left == left[n..])
  }

  lemma UsesStep(m: nat, n: nat, left: seq<string>, line: string, r: Result<Pass, RewriteError>)
    requires m <= |left| && TakesPaths(n, left[m..], r)
    ensures TakesPaths(m + n, left, PutBefore(line, r))
  {
    if n <= |left| - m { assert left[m..][n..] == left[m + n..]; }
  }

  /** The rewriter has paths enough exactly when the parser found no more modules than
      there are paths, and then leaves the rest. */
  lemma {:induction false} RewriteSucceeds(lines: seq<string>, prefix: string, kernel: string,
                                           left: seq<string>)
    requires BomFree(lines)
    ensures TakesPaths(|ModuleList(ReadLines(lines))|, left, RewriteLines(lines, prefix, kernel, left))
    decreases |lines|
  {
    if lines != [] {
      hide NoBom, BomFree, ReadLines, ModuleList, RewriteLines, Read, Uses, WrittenFor, Strip, NoBreaks, All,
           PutBefore;
      var line, rest := HeadAndTail(lines);
      if Read(line).None? {
        SkipLine(line, rest, prefix, kernel, left);
        RewriteSucceeds(rest, prefix, kernel, left);
      } else {
        var a := Read(line).value;
        TakeLine(line, a, rest, prefix, kernel, left);
        ModuleCons(a, ReadLines(rest));
        if Uses(a) <= |left| {
          RewriteSucceeds(rest, prefix, kernel, left[Uses(a)..]);
          hide TakesPaths;
          UsesStep(Uses(a), |ModuleList(ReadLines(rest))|, left,
                   WrittenFor(a, Strip(line), prefix, kernel, left),
                   RewriteLines(rest, prefix, kernel, left[Uses(a)..]));
        }
      }
    }
  }

  lemma NeatCons(out: string, rest: seq<string>)
    requires IsNeat(out) && AreNeat(rest)
    ensures AreNeat([out] + rest)
  {
    hide IsNeat;
  }

  lemma LineReadsBack(line: string, a: Assignment, tail: seq<Assignment>, out: seq<string>,
                      prefix: string, kernel: string, left: seq<string>)
    requires Read(line) == Some(a) && OneLine(line)
    requires IsHttpPrefix(prefix) && IsPath(kernel) && ArePaths(left)
    requires Uses(a) + |ModuleList(tail)| <= |left| && AreNeat(out)
    requires ReadLines(out) == RedirectAll(tail, prefix, kernel, left[Uses(a)..])
    ensures |ModuleList([a] + tail)| <= |left|
    ensures
      var all := [WrittenFor(a, Strip(line), prefix, kernel, left)] + out;
      AreNeat(all) && ReadLines(all) == RedirectAll([a] + tail, prefix, kernel, left)
  {
    hide ReadLines, ModuleList, Read, Uses, WrittenFor, Strip, All, IsHttpPrefix, IsPath, ArePaths,
         RedirectAll, Redirect, IsNeat, AreNeat;
    var written := WrittenFor(a, Strip(line), prefix, kernel, left);
    WrittenReads(line, a, prefix, kernel, left);
    NeatCons(written, out);
    ReadCons(written, out);
    RedirectCons(a, tail, prefix, kernel, left);
  }

  /** The rewritten lines are neat and read back as the redirected assignments. */
  lemma {:induction false} LinesReadBack(lines: seq<string>, prefix: string, kernel: string,
                                         left: seq<string>)
    requires BomFree(lines) && NoBreaks(lines)
    requires IsHttpPrefix(prefix) && IsPath(kernel) && ArePaths(left)
    requires RewriteLines(lines, prefix, kernel, left).Ok?
    ensures |ModuleList(ReadLines(lines))| <= |left|
    ensures
      var out := RewriteLines(lines, prefix, kernel, left).value.out;
      AreNeat(out) && ReadLines(out) == RedirectAll(ReadLines(lines), prefix, kernel, left)
    decreases |lines|
  {
    RewriteSucceeds(lines, prefix, kernel, left);
    if lines != [] {
      hide NoBom, BomFree, ReadLines, ModuleList, RewriteLines, Read, Uses, WrittenFor, Strip, All, NoBreaks,
           IsHttpPrefix, IsPath, ArePaths, RedirectAll, Redirect, IsNeat, AreNeat;
      var line, rest := HeadAndTail(lines);
      if Read(line).None? {
        SkipLine(line, rest, prefix, kernel, left);
        LinesReadBack(rest, prefix, kernel, left);
      } else {
        var a := Read(line).value;
        TakeLine(line, a, rest, prefix, kernel, left);
        var later := RewriteLines(rest, prefix, kernel, left[Uses(a)..]);
        PathsPrefix(left, Uses(a));
        LinesReadBack(rest, prefix, kernel, left[Uses(a)..]);
        LineReadsBack(line, a, ReadLines(rest), later.value.out, prefix, kernel, left);
      }
    }
  }

  // ---- The prefix line --------------------------------------------------

  predicate AnyPrefixKey(items: seq<Assignment>) {
    exists i :: 0 <= i < |items| && KindOf(items[i].key) == PrefixKey
  }

  lemma AnyPrefixCons(a: Assignment, rest: seq<Assignment>)
    ensures AnyPrefixKey([a] + rest) <==> KindOf(a.key) == PrefixKey || AnyPrefixKey(rest)
  {
    hide KindOf;
    var all := [a] + rest;
    assert all[0] == a;
    assert forall i :: 0 <= i < |rest| ==> all[i + 1] == rest[i];
  }

  lemma AnyWritesCons(line: string, rest: seq<string>)
    ensures AnyWritesPrefix([line] + rest) <==> WritesPrefix(line) || AnyWritesPrefix(rest)
  {
    hide WritesPrefix;
    var all := [line] + rest;
    assert all[0] == line;
    assert forall i :: 0 <= i < |rest| ==> all[i + 1] == rest[i];
  }

  lemma PrefixStep(line: string, rest: seq<string>)
    requires NoBom(line) && (AnyWritesPrefix(rest) <==> AnyPrefixKey(ReadLines(rest)))
    ensures AnyWritesPrefix([line] + rest) <==> AnyPrefixKey(ReadLines([line] + rest))
  {
    hide ReadLines, Read, Bared, Strip, WritesPrefix, AnyWritesPrefix, AnyPrefixKey, KindOf, RewriteLine;
    AnyWritesCons(line, rest);
    if Read(line).Some? {
      NoBomBared(line);
      PrefixReads(line);
      ReadCons(line, rest);
      AnyPrefixCons(Read(line).value, ReadLines(rest));
    } else {
      DroppedLine(line, "", "", []);
      ReadNone(line, rest);
    }
  }

  lemma {:induction false} PrefixesAgree(lines: seq<string>)
    requires BomFree(lines)
    ensures AnyWritesPrefix(lines) <==> AnyPrefixKey(ReadLines(lines))
    decreases |lines|
  {
    if lines != [] {
      hide NoBom, BomFree, ReadLines, AnyWritesPrefix, AnyPrefixKey, NoBreaks, All;
      var line, rest := HeadAndTail(lines);
      PrefixesAgree(rest);
      PrefixStep(line, rest);
    }
  }

  // ---- The whole file ---------------------------------------------------

  /** The logical lines of a boot.cfg, as the parser sees them. */
  function LogicalLines(raw: string): (lines: seq<string>)
    ensures NoBreaks(lines)
  {
    SplitLines(Merged(raw))
  }

  /** What follows the first line break. */
  function BehindFirst(t: string): string {
    var m := Span(NotBreak, t);
    if m == |t| then "" else t[m + BreakLength(t, m)..]
  }

  lemma FirstLine(t: string)
    requires t != ""
    ensures SplitLines(t) == [t[..Span(NotBreak, t)]] + SplitLines(BehindFirst(t))
  {
    var m := Span(NotBreak, t);
    hide All, NoBreaks;
    if m == |t| {
      assert t[..m] == t && SplitLines("") == [];
    }
  }

  /** Byte order marks belong to the first line. */
  lemma BomHead(t: string, n: nat)
    requires n <= |t| && All(IsBom, t[..n])
    ensures n <= Span(NotBreak, t) && Span(NotBreak, t[n..]) == Span(NotBreak, t) - n
    ensures BehindFirst(t[n..]) == BehindFirst(t)
  {
    hide All, Span, BehindFirst;
    BomNotBreak(t, n);
    SpanTail(t, n, Span(NotBreak, t));
    BehindTail(t, n, Span(NotBreak, t));
  }

  lemma SpanTail(t: string, n: nat, m: nat)
    requires n <= m == Span(NotBreak, t)
    ensures Span(NotBreak, t[n..]) == m - n
  {
    assert All(NotBreak, t[..m]);
    hide All, Span;
    AllConcat(NotBreak, t[..n], t[n..m]);
    assert t[..n] + t[n..m] == t[..m];
    SpanOf(NotBreak, t[n..m], t[m..]);
    assert t[n..] == t[n..m] + t[m..];
  }

  lemma BehindTail(t: string, n: nat, m: nat)
    requires n <= m == Span(NotBreak, t) && Span(NotBreak, t[n..]) == m - n
    ensures BehindFirst(t[n..]) == BehindFirst(t)
  {
    hide Span;
    if m < |t| {
      assert t[n..][m - n] == t[m];
      assert m + 1 < |t| ==> t[n..][m - n + 1] == t[m + 1];
      assert BreakLength(t[n..], m - n) == BreakLength(t, m);
    }
  }

  lemma BomNotBreak(t: string, n: nat)
    requires n <= |t| && All(IsBom, t[..n])
    ensures Span(NotBreak, t) >= n
  {
    assert forall k :: 0 <= k < n ==> t[..n][k] == t[k];
    var m := Span(NotBreak, t);
    assert m < n ==> IsBom(t[..n][m]);
  }

  lemma BomAssigns(line: string, n: nat)
    requires 0 < n <= |line| && All(IsBom, line[..n]) && NoBom(line)
    ensures Read(line).None? && Read(line[n..]).None?
  {
    BomStripped(line);
    EqualsStripped(line);
    EqualsStripped(line[n..]);
    assert '=' in line[n..] ==> '=' in line;
    assert IsBom(line[..n][0]);
    hide Strip, KeyOf, ValueOf, All;
  }

  lemma BomStripped(line: string)
    requires line != "" && !IsSpace(line[0])
    ensures Strip(line) != "" && Strip(line)[0] == line[0]
  {
    FirstKept(line);
    assert TrimLeft(IsSpace, line) == line by {
      EmptyAll(IsSpace);
      assert "" + line == line;
      SpanOf(IsSpace, "", line);
    }
  }

  lemma EqualsStripped(line: string)
    ensures '=' in Strip(line) <==> '=' in line
  {
    var a, b := TrimSplit(IsSpace, line);
    SpacesNotEquals(a);
    SpacesNotEquals(b);
    hide Trim;
    NoEqualsIn(a);
    NoEqualsIn(b);
    assert '=' in line ==> '=' in a + Strip(line) + b;
    assert '=' in Strip(line) ==> '=' in a + Strip(line) + b;
  }

  lemma NoEqualsIn(a: string)
    requires All(NotEquals, a)
    ensures '=' !in a
  {
  }

  lemma FirstKept(line: string)
    requires line != "" && !IsSpace(line[0])
    ensures Kept(IsSpace, line) > 0
  {
    assert line[0..] == line;
  }

  lemma FirstNoBom(lines: seq<string>)
    requires lines != [] && BomFree(lines)
    ensures NoBom(lines[0])
  {
  }

  lemma SkipFirst(lines: seq<string>, prefix: string, kernel: string, left: seq<string>)
    requires lines != [] && Read(lines[0]).None?
    ensures RewriteLines(lines, prefix, kernel, left) == RewriteLines(lines[1..], prefix, kernel, left)
    ensures AnyWritesPrefix(lines) <==> AnyWritesPrefix(lines[1..])
  {
    hide RewriteLines, Read, AnyWritesPrefix, WritesPrefix, RewriteLine;
    assert lines == [lines[0]] + lines[1..];
    SkipLine(lines[0], lines[1..], prefix, kernel, left);
    DroppedLine(lines[0], prefix, kernel, left);
    AnyWritesCons(lines[0], lines[1..]);
  }

  lemma AllBom(t: string)
    requires Span(NotBreak, t) == |t|
    ensures SplitLines(BehindFirst(t)) == []
  {
  }

  /** Byte order marks at the start of the file only change a line that assigns nothing: the
      rewriter sees the parser's lines. */
  lemma SourceIsLogical(raw: string, prefix: string, kernel: string, left: seq<string>)
    requires BomFree(LogicalLines(raw))
    ensures RewriteLines(SourceLines(raw), prefix, kernel, left) ==
            RewriteLines(LogicalLines(raw), prefix, kernel, left)
    ensures AnyWritesPrefix(SourceLines(raw)) <==> AnyWritesPrefix(LogicalLines(raw))
  {
    var t := Merged(raw);
    var n := Span(IsBom, t);
    hide Merged, BomFree, SplitLines, RewriteLines, NoBom, AnyWritesPrefix, All, Read, NoBreaks;
    if n == 0 {
      assert t[0..] == t;
    } else {
      var m := Span(NotBreak, t);
      BomHead(t, n);
      FirstLine(t);
      var lines := LogicalLines(raw);
      FirstNoBom(lines);
      assert t[..m][..n] == t[..n];
      BomAssigns(t[..m], n);
      SkipFirst(lines, prefix, kernel, left);
      if t[n..] != "" {
        FirstLine(t[n..]);
        assert t[n..][..m - n] == t[..m][n..];
        SkipFirst(SourceLines(raw), prefix, kernel, left);
      } else {
        AllBom(t);
      }
    }
  }

  /** The assignments the rewritten file should make. */
  function Expected(items: seq<Assignment>, prefix: string, kernel: string, paths: seq<string>)
    : seq<Assignment>
    requires |ModuleList(items)| <= |paths|
  {
    (if AnyPrefixKey(items) then [] else [Assignment(PREFIX, prefix)])
    + RedirectAll(items, prefix, kernel, paths)
  }

  /** Without byte order marks, rewriting raises an error exactly when the number of paths is
      not the number of modules the parser found. */
  lemma MarkFreeIsOk(raw: string, httpPrefix: string, kernel: string, paths: seq<string>)
    requires BomFree(LogicalLines(raw))
    ensures Rewrite(raw, httpPrefix, kernel, paths).Ok? <==> |ModuleList(Assignments(raw))| == |paths|
  {
    hide Merged, BomFree, SplitLines, NoBreaks, ModuleList, RewriteLines, OutLines, SourceLines, ReadLines;
    SourceIsLogical(raw, FullPrefix(httpPrefix), kernel, paths);
    RewriteSucceeds(LogicalLines(raw), FullPrefix(httpPrefix), kernel, paths);
  }

  lemma TitlesOneLine()
    ensures OneLine(TITLE) && OneLine(SUBTITLE)
  {
  }

  lemma EndsOneLine()
    ensures OneLine(ENDING) && OneLine("# ") && OneLine(".")
  {
  }

  lemma HeaderOneLine()
    ensures OneLine(HEADER)
  {
    TitlesOneLine();
    EndsOneLine();
    hide All;
    AllConcat(NotBreak, TITLE, SUBTITLE);
    AllConcat(NotBreak, TITLE + SUBTITLE, ENDING);
    AllConcat(NotBreak, "# ", TITLE + SUBTITLE + ENDING);
    AllConcat(NotBreak, "# " + (TITLE + SUBTITLE + ENDING), ".");
  }

  lemma HeaderEnds(body: string)
    ensures Read("# " + body + ".").None? && !IsContinued("# " + body + ".")
  {
    var line := "# " + body + ".";
    assert line[0] == '#' && line[|line| - 1] == '.';
    TrimBare(IsSpace, line);
  }

  lemma HeaderLine()
    ensures OneLine(HEADER) && !IsContinued(HEADER) && Read(HEADER).None?
  {
    HeaderOneLine();
    hide All, Read, IsContinued, TITLE, SUBTITLE, ENDING;
    HeaderEnds(TITLE + SUBTITLE + ENDING);
  }

  lemma NoBreaksCons(line: string, rest: seq<string>)
    requires OneLine(line) && NoBreaks(rest)
    ensures NoBreaks([line] + rest)
  {
    hide All;
  }

  /** A file made of the header and neat lines. */
  lemma HeadedReadsBack(body: seq<string>)
    requires AreNeat(body)
    ensures Assignments(Unlines([HEADER] + body)) == ReadLines(body) <==> NoneContinued(body)
  {
    HeaderLine();
    NeatNoBreaks(body);
    hide All, Read, NoBreaks, IsContinued, AreNeat, MergePieces, ReadLines, NoneContinued, Unlines;
    NoBreaksCons(HEADER, body);
    WrittenAssignments([HEADER] + body);
    Assoc([HEADER], body, [""]);
    MergeStep(HEADER, body + [""], "");
    assert "" + HEADER == HEADER;
    ReadNone(HEADER, MergePieces(body + [""], ""));
    ReadBackLines(body);
  }

  // ---- Which lines end in a backslash -----------------------------------

  /** The rewritten form of this source line ends in a backslash. */
  predicate Continues(line: string) {
    match Read(line)
    case None => false
    case Some(a) =>
      match KindOf(a.key)
      case OptionKey => IsContinued(Normalize(a.value))
      case PlainKey => IsContinued(Strip(line))
      case _ => false
  }

  predicate NoneContinues(lines: seq<string>) {
    forall i :: 0 <= i < |lines| ==> !Continues(lines[i])
  }

  lemma ContinuedValue(name: string, x: string)
    ensures IsContinued(name + "=" + x) <==> IsContinued(x)
  {
    var line := name + "=" + x;
    assert line[|line| - 1] == if x == "" then '=' else x[|x| - 1];
  }

  /** A line without a value does not end in a backslash. */
  lemma NoValue(line: string, a: Assignment)
    requires Read(line) == Some(a) && a.value == ""
    ensures !IsContinued(Strip(line))
  {
    var s := Strip(line);
    hide IsComment, KeyOf, ValueOf, Strip, All;
    if IsContinued(s) {
      var head, r, c := CutLast(s);
      ReadCut(head, r + [c]);
      StripSnoc(r, c);
    }
  }

  lemma ModulesNotContinued(a: Assignment, left: seq<string>)
    requires Uses(a) <= |left| && ArePaths(left)
    ensures !IsContinued(MODULES + "=" + JoinModules(left[..Uses(a)]))
  {
    hide Uses, IsPath, ArePaths, JoinModules, All, AreClean, IsContinued;
    PathsPrefix(left, Uses(a));
    PathsJoin(left[..Uses(a)]);
    ContinuedValue(MODULES, JoinModules(left[..Uses(a)]));
  }

  lemma ModuleNotContinued(left: seq<string>)
    requires left != [] && ArePaths(left)
    ensures !IsContinued(MODULE + "=" + left[0])
  {
    assert IsPath(left[0]);
    hide IsClean, All, IsContinued;
    ContinuedValue(MODULE, left[0]);
  }

  lemma EndsNotContinued(prefix: string, kernel: string)
    requires IsHttpPrefix(prefix) && IsPath(kernel)
    ensures !IsContinued(PREFIX + "=" + prefix) && !IsContinued(KERNEL + "=" + kernel)
  {
    hide IsClean, All, IsContinued, Trimmed;
    ContinuedValue(PREFIX, prefix);
    ContinuedValue(KERNEL, kernel);
  }

  lemma WrittenContinues(line: string, a: Assignment, prefix: string, kernel: string, left: seq<string>)
    requires Read(line) == Some(a) && Uses(a) <= |left|
    requires IsHttpPrefix(prefix) && IsPath(kernel) && ArePaths(left)
    ensures IsContinued(WrittenFor(a, Strip(line), prefix, kernel, left)) <==> Continues(line)
  {
    hide Normalize, Strip, All, Read, JoinModules, KindOf, IsPath, ArePaths, IsHttpPrefix, IsContinued,
         ModulesOf;
    match KindOf(a.key)
    case PrefixKey => EndsNotContinued(prefix, kernel);
    case KernelKey => EndsNotContinued(prefix, kernel);
    case OptionKey => ContinuedValue(KERNELOPT, Normalize(a.value));
    case ModulesKey => ModulesNotContinued(a, left);
    case ModuleKey =>
      if a.value == "" {
        NoValue(line, a);
      } else {
        ModuleUsesOne(a);
        ModuleNotContinued(left);
      }
    case PlainKey =>
  }

  lemma NoneContinuedCons(line: string, rest: seq<string>)
    ensures NoneContinued([line] + rest) <==> !IsContinued(line) && NoneContinued(rest)
  {
    hide IsContinued;
    var all := [line] + rest;
    assert all[0] == line;
    assert forall i :: 0 <= i < |rest| ==> all[i + 1] == rest[i];
  }

  lemma NoneContinuesCons(line: string, rest: seq<string>)
    ensures NoneContinues([line] + rest) <==> !Continues(line) && NoneContinues(rest)
  {
    hide Continues;
    var all := [line] + rest;
    assert all[0] == line;
    assert forall i :: 0 <= i < |rest| ==> all[i + 1] == rest[i];
  }

  lemma {:induction false} LinesContinue(lines: seq<string>, prefix: string, kernel: string,
                                         left: seq<string>)
    requires BomFree(lines) && IsHttpPrefix(prefix) && IsPath(kernel) && ArePaths(left)
    requires RewriteLines(lines, prefix, kernel, left).Ok?
    ensures NoneContinued(RewriteLines(lines, prefix, kernel, left).value.out) <==> NoneContinues(lines)
    decreases |lines|
  {
    if lines != [] {
      hide NoBom, BomFree, ReadLines, RewriteLines, Read, Uses, WrittenFor, Strip, IsHttpPrefix, NoBreaks, All,
           IsPath, ArePaths, Continues, NoneContinues, IsContinued, NoneContinued;
      var line, rest := HeadAndTail(lines);
      NoneContinuesCons(line, rest);
      if Read(line).None? {
        NothingContinues(line);
        SkipLine(line, rest, prefix, kernel, left);
        LinesContinue(rest, prefix, kernel, left);
      } else {
        var a := Read(line).value;
        TakeLine(line, a, rest, prefix, kernel, left);
        PathsPrefix(left, Uses(a));
        LinesContinue(rest, prefix, kernel, left[Uses(a)..]);
        WrittenContinues(line, a, prefix, kernel, left);
        NoneContinuedCons(WrittenFor(a, Strip(line), prefix, kernel, left),
                          RewriteLines(rest, prefix, kernel, left[Uses(a)..]).value.out);
      }
    }
  }

  lemma NothingContinues(line: string)
    requires Read(line).None?
    ensures !Continues(line)
  {
    hide Read;
  }

  // ---- Main results -----------------------------------------------------

  lemma BodyReads(items: seq<Assignment>, prefix: string, kernel: string, paths: seq<string>,
                  out: seq<string>)
    requires IsHttpPrefix(prefix) && |ModuleList(items)| <= |paths| && AreNeat(out)
    requires ReadLines(out) == RedirectAll(items, prefix, kernel, paths)
    ensures
      var body := (if AnyPrefixKey(items) then [] else ["prefix=" + prefix]) + out;
      && AreNeat(body) && ReadLines(body) == Expected(items, prefix, kernel, paths)
      && (NoneContinued(body) <==> NoneContinued(out))
  {
    assert PREFIX + "=" == "prefix=" by { KeyLiterals(); }
    assert [] + out == out;
    hide IsNeat, AreNeat, ReadLines, RedirectAll, AnyPrefixKey, NoneContinued, ModuleList, Read, IsHttpPrefix,
         IsContinued;
    assert [] + ReadLines(out) == ReadLines(out);
    if !AnyPrefixKey(items) {
      var line := PREFIX + "=" + prefix;
      PrefixWritten(prefix);
      NeatCons(line, out);
      ReadCons(line, out);
      PrefixNotContinued(prefix);
      NoneContinuedCons(line, out);
    }
  }

  lemma PrefixNotContinued(prefix: string)
    requires IsHttpPrefix(prefix)
    ensures !IsContinued(PREFIX + "=" + prefix)
  {
    hide Trimmed, All, IsContinued;
    ContinuedValue(PREFIX, prefix);
  }

  /** The rewriter can as well be given these lines. */
  ghost predicate StandFor(lines: seq<string>, raw: string, prefix: string, kernel: string, paths: seq<string>) {
    && RewriteLines(SourceLines(raw), prefix, kernel, paths) == RewriteLines(lines, prefix, kernel, paths)
    && (AnyWritesPrefix(SourceLines(raw)) <==> AnyWritesPrefix(lines))
  }

  /** The rewritten file: the header, then neat lines that assign what is expected. */
  lemma RewriteBody(raw: string, lines: seq<string>, httpPrefix: string, kernel: string, paths: seq<string>)
    returns (body: seq<string>)
    requires BomFree(lines) && NoBreaks(lines) && StandFor(lines, raw, FullPrefix(httpPrefix), kernel, paths)
    requires |ModuleList(ReadLines(lines))| == |paths|
    requires IsHttpPrefix(FullPrefix(httpPrefix)) && IsPath(kernel) && ArePaths(paths)
    ensures Rewrite(raw, httpPrefix, kernel, paths) == Ok(Unlines([HEADER] + body))
    ensures AreNeat(body)
    ensures ReadLines(body) == Expected(ReadLines(lines), FullPrefix(httpPrefix), kernel, paths)
    ensures NoneContinued(body) <==> NoneContinues(lines)
    ensures
      var r := RewriteLines(lines, FullPrefix(httpPrefix), kernel, paths);
      r.Ok? && (body == r.value.out || body == ["prefix=" + FullPrefix(httpPrefix)] + r.value.out)
  {
    var prefix := FullPrefix(httpPrefix);
    hide Merged, BomFree, SplitLines, NoBreaks, ModuleList, RewriteLines, SourceLines, ReadLines, AnyPrefixKey,
         IsPath, ArePaths, IsHttpPrefix, FullPrefix, NoneContinued, NoneContinues, AnyWritesPrefix, AreNeat,
         Expected, HEADER, Unlines;
    RewriteSucceeds(lines, prefix, kernel, paths);
    var out := RewriteLines(lines, prefix, kernel, paths).value.out;
    LinesReadBack(lines, prefix, kernel, paths);
    LinesContinue(lines, prefix, kernel, paths);
    PrefixesAgree(lines);
    var items := ReadLines(lines);
    BodyReads(items, prefix, kernel, paths, out);
    body := (if AnyPrefixKey(items) then [] else ["prefix=" + prefix]) + out;
    assert [] + out == out;
    Assoc([HEADER], if AnyPrefixKey(items) then [] else ["prefix=" + prefix], out);
  }

  lemma LogicalStands(raw: string, prefix: string, kernel: string, paths: seq<string>)
    requires BomFree(LogicalLines(raw))
    ensures StandFor(LogicalLines(raw), raw, prefix, kernel, paths)
    ensures Assignments(raw) == ReadLines(LogicalLines(raw)) && NoBreaks(LogicalLines(raw))
  {
    hide BomFree, RewriteLines, SourceLines, AnyWritesPrefix, Merged, ReadLines, SplitLines;
    SourceIsLogical(raw, prefix, kernel, paths);
  }

  /** Rewriting and reading back, without byte order marks: with as many clean paths as the
      parser found modules the rewriter does not fail, and the parser reads exactly the redirected assignments out of
      its result if and only if no rewritten line ends in a backslash. */
  lemma MarkFreeReadsBack(raw: string, httpPrefix: string, kernel: string, paths: seq<string>)
    requires BomFree(LogicalLines(raw)) && |ModuleList(Assignments(raw))| == |paths|
    requires IsHttpPrefix(FullPrefix(httpPrefix)) && IsPath(kernel) && ArePaths(paths)
    ensures
      var r := Rewrite(raw, httpPrefix, kernel, paths);
      r.Ok? &&
      var same := Assignments(r.value) == Expected(Assignments(raw), FullPrefix(httpPrefix), kernel, paths);
      same <==> NoneContinues(LogicalLines(raw))
  {
    hide Rewrite, RewriteLines, BomFree, ModuleList, Assignments, IsPath, ArePaths, IsHttpPrefix, FullPrefix,
         NoneContinued, NoneContinues, AreNeat, Expected, HEADER, Unlines, LogicalLines, ReadLines, StandFor, NoBreaks;
    LogicalStands(raw, FullPrefix(httpPrefix), kernel, paths);
    var body := RewriteBody(raw, LogicalLines(raw), httpPrefix, kernel, paths);
    HeadedReadsBack(body);
  }

  // ---- No line of the result starts with a byte order mark --------------

  lemma HeadNoBom(name: string, x: string)
    requires IsHead(name) && Trimmed(x)
    ensures NoBom(name + "=" + x)
  {
    hide IsName, All;
    WrittenTrimmed(name, x);
    TrimBare(IsSpace, name + "=" + x);
  }

  lemma KeptNoBom(line: string)
    requires NoBom(line)
    ensures NoBom(Strip(line))
  {
    hide Strip, KeyOf, ValueOf, IsComment;
    BareLine(line);
  }

  lemma PathsNoBom(a: Assignment, left: seq<string>)
    requires Uses(a) <= |left| && ArePaths(left)
    ensures NoBom(MODULES + "=" + JoinModules(left[..Uses(a)]))
  {
    Heads();
    hide IsHead, Uses, All, NoDashes, Trimmed, JoinModules, NoBom, ArePaths, IsPath;
    PathsPrefix(left, Uses(a));
    PathsJoin(left[..Uses(a)]);
    CleanJoin(left[..Uses(a)]);
    HeadNoBom(MODULES, JoinModules(left[..Uses(a)]));
  }

  lemma PathNoBom(name: string, path: string)
    requires IsHead(name) && IsPath(path)
    ensures NoBom(name + "=" + path)
  {
    hide IsHead, All, NoDashes, Trimmed, NoBom;
    HeadNoBom(name, path);
  }

  lemma PrefixNoBom(prefix: string)
    requires IsHttpPrefix(prefix)
    ensures NoBom(PREFIX + "=" + prefix)
  {
    Heads();
    hide IsHead, All, Trimmed, NoBom;
    HeadNoBom(PREFIX, prefix);
  }

  lemma OptionNoBom(value: string)
    ensures NoBom(KERNELOPT + "=" + Normalize(value))
  {
    Heads();
    hide IsHead, All, Trimmed, NoBom, Normalize;
    NormalizeNeat(value);
    HeadNoBom(KERNELOPT, Normalize(value));
  }

  lemma WrittenNoBom(line: string, a: Assignment, prefix: string, kernel: string, left: seq<string>)
    requires NoBom(line) && Read(line) == Some(a) && Uses(a) <= |left|
    requires IsHttpPrefix(prefix) && IsPath(kernel) && ArePaths(left)
    ensures NoBom(WrittenFor(a, Strip(line), prefix, kernel, left))
  {
    Heads();
    hide IsHead, Normalize, Strip, All, Read, JoinModules, KindOf, IsPath, ArePaths, IsHttpPrefix, NoBom, ModulesOf;
    match KindOf(a.key)
    case PrefixKey => PrefixNoBom(prefix);
    case KernelKey => PathNoBom(KERNEL, kernel);
    case OptionKey => OptionNoBom(a.value);
    case ModulesKey => PathsNoBom(a, left);
    case ModuleKey =>
      KeptNoBom(line);
      if a.value != "" {
        ModuleUsesOne(a);
        FirstPath(left);
        PathNoBom(MODULE, left[0]);
      }
    case PlainKey => KeptNoBom(line);
  }

  lemma BomFreeCons(line: string, rest: seq<string>)
    requires NoBom(line) && BomFree(rest)
    ensures BomFree([line] + rest)
  {
    hide NoBom;
  }

  lemma {:induction false} LinesNoBom(lines: seq<string>, prefix: string, kernel: string, left: seq<string>)
    requires BomFree(lines) && IsHttpPrefix(prefix) && IsPath(kernel) && ArePaths(left)
    requires RewriteLines(lines, prefix, kernel, left).Ok?
    ensures BomFree(RewriteLines(lines, prefix, kernel, left).value.out)
    decreases |lines|
  {
    if lines != [] {
      hide NoBom, BomFree, ReadLines, RewriteLines, Read, Uses, WrittenFor, Strip, IsHttpPrefix, NoBreaks, All,
           IsPath, ArePaths;
      var line, rest := HeadAndTail(lines);
      if Read(line).None? {
        SkipLine(line, rest, prefix, kernel, left);
        LinesNoBom(rest, prefix, kernel, left);
      } else {
        var a := Read(line).value;
        TakeLine(line, a, rest, prefix, kernel, left);
        PathsPrefix(left, Uses(a));
        LinesNoBom(rest, prefix, kernel, left[Uses(a)..]);
        WrittenNoBom(line, a, prefix, kernel, left);
        BomFreeCons(WrittenFor(a, Strip(line), prefix, kernel, left),
                    RewriteLines(rest, prefix, kernel, left[Uses(a)..]).value.out);
      }
    }
  }

  // ---- What the redirected assignments mean -----------------------------

  lemma RedirectModules(a: Assignment, prefix: string, kernel: string, left: seq<string>)
    requires Uses(a) <= |left| && ArePaths(left)
    ensures ModulesOf(Redirect(a, prefix, kernel, left)) == left[..Uses(a)]
  {
    KindsOfKeys();
    PathsPrefix(left, Uses(a));
    PathsAreClean(left[..Uses(a)]);
    SegmentsOfJoin(left[..Uses(a)]);
    hide Segments, JoinModules, AreClean, Normalize, KindOf, IsPath, ArePaths;
    if KindOf(a.key) == ModuleKey && a.value != "" {
      assert Uses(a) == 1 && left[0] != "" by { assert IsPath(left[0]) by { FirstPath(left); } OnePath(left[0]); }
      assert left[..1] == [left[0]];
    }
  }

  lemma FirstPath(left: seq<string>)
    requires left != [] && ArePaths(left)
    ensures IsPath(left[0])
  {
    hide IsPath;
  }

  lemma OnePath(path: string)
    requires IsPath(path)
    ensures path != ""
  {
  }

  lemma KindsOfKeys()
    ensures KindOf(PREFIX) == PrefixKey && KindOf(PREFIX_HTTP) == PrefixKey
    ensures KindOf(KERNEL) == KernelKey && KindOf(KERNELOPT) == OptionKey
    ensures KindOf(MODULES) == ModulesKey && KindOf(MODULE) == ModuleKey
  {
    NamesDiffer();
  }

  lemma RedirectedNone(prefix: string, kernel: string, left: seq<string>)
    ensures ModuleList([]) == [] && ModuleList(RedirectAll([], prefix, kernel, left)) == left[..0]
  {
  }

  /** The modules of the redirected assignments are the paths, in order. */
  lemma {:induction false} RedirectedModules(items: seq<Assignment>, prefix: string, kernel: string,
                                             left: seq<string>)
    requires |ModuleList(items)| <= |left| && ArePaths(left)
    ensures ModuleList(RedirectAll(items, prefix, kernel, left)) == left[..|ModuleList(items)|]
    decreases |items|
  {
    hide Redirect, ModulesOf, IsPath, ArePaths, Uses, ModuleList, RedirectAll;
    if items == [] {
      RedirectedNone(prefix, kernel, left);
    } else {
      var a, rest := items[0], items[1..];
      assert items == [a] + rest;
      ModuleCons(a, rest);
      PathsPrefix(left, Uses(a));
      RedirectModules(a, prefix, kernel, left);
      RedirectedModules(rest, prefix, kernel, left[Uses(a)..]);
      ModulesStep(Redirect(a, prefix, kernel, left), RedirectAll(rest, prefix, kernel, left[Uses(a)..]),
                  left, Uses(a), |ModuleList(rest)|);
      RedirectCons(a, rest, prefix, kernel, left);
    }
  }

  lemma ModulesStep(a: Assignment, rest: seq<Assignment>, left: seq<string>, m: nat, n: nat)
    requires m + n <= |left| && ModulesOf(a) == left[..m] && ModuleList(rest) == left[m..][..n]
    ensures ModuleList([a] + rest) == left[..m + n]
  {
    hide ModulesOf;
    assert ([a] + rest)[1..] == rest;
    assert left[..m] + left[m..][..n] == left[..m + n];
  }

  /** The keys of the rewritten file, given the keys of the source: the given prefix, the
      given kernel where there was one, the kernel options without CD-ROM and in network
      form, and every other key unchanged. */
  ghost predicate Redirected(source: map<string, string>, target: map<string, string>, prefix: string,
                             kernel: string)
  {
    && PREFIX_HTTP !in target
    && (PREFIX in source || PREFIX_HTTP in source ==> PREFIX in target)
    && (PREFIX in target ==> target[PREFIX] == prefix)
    && (KERNEL in target <==> KERNEL in source)
    && (KERNEL in target ==> target[KERNEL] == kernel)
    && (KERNELOPT in target <==> KERNELOPT in source)
    && (KERNELOPT in target ==> target[KERNELOPT] == Normalize(source[KERNELOPT]))
    && (forall key :: KindOf(key) == PlainKey ==> (key in target <==> key in source))
    && (forall key :: KindOf(key) == PlainKey && key in target ==> target[key] == source[key])
  }

  lemma PutRedirected(source: map<string, string>, target: map<string, string>, a: Assignment,
                      prefix: string, kernel: string, left: seq<string>)
    requires Redirected(source, target, prefix, kernel) && Uses(a) <= |left|
    ensures
      var after := Put(target, Redirect(a, prefix, kernel, left));
      && Redirected(Put(source, a), after, prefix, kernel)
      && (PREFIX in target || KindOf(a.key) == PrefixKey ==> PREFIX in after)
  {
    KindsOfKeys();
    NamesDiffer();
    KindIs(a.key);
    hide KindOf, Uses, JoinModules, Normalize, PREFIX, PREFIX_HTTP, KERNEL, KERNELOPT, MODULES, MODULE;
  }

  lemma {:induction false} KeysRedirected(items: seq<Assignment>, source: map<string, string>,
                                          target: map<string, string>, prefix: string, kernel: string,
                                          left: seq<string>)
    requires Redirected(source, target, prefix, kernel) && |ModuleList(items)| <= |left|
    ensures
      var after := Keys(target, RedirectAll(items, prefix, kernel, left));
      && Redirected(Keys(source, items), after, prefix, kernel)
      && (PREFIX in target || AnyPrefixKey(items) ==> PREFIX in after)
    decreases |items|
  {
    if items != [] {
      var a, rest := items[0], items[1..];
      hide Redirect, ModulesOf, Uses, Redirected, Put, KindOf, AnyPrefixKey;
      assert items == [a] + rest;
      ModuleCons(a, rest);
      var b, later := Redirect(a, prefix, kernel, left), RedirectAll(rest, prefix, kernel, left[Uses(a)..]);
      PutRedirected(source, target, a, prefix, kernel, left);
      KeysRedirected(rest, Put(source, a), Put(target, b), prefix, kernel, left[Uses(a)..]);
      AnyPrefixCons(a, rest);
      RedirectCons(a, rest, prefix, kernel, left);
      assert ([b] + later)[1..] == later;
    }
  }

  lemma StartRedirected(prefix: string, kernel: string)
    ensures Redirected(map[], map[], prefix, kernel)
    ensures Redirected(map[], map[PREFIX := prefix], prefix, kernel)
    ensures Put(map[], Assignment(PREFIX, prefix)) == map[PREFIX := prefix]
  {
    KindsOfKeys();
    NamesDiffer();
    hide KindOf, Normalize, PREFIX, PREFIX_HTTP, KERNEL, KERNELOPT;
  }

  lemma PrefixNoModule(prefix: string, later: seq<Assignment>)
    ensures ModuleList([Assignment(PREFIX, prefix)] + later) == ModuleList(later)
    ensures Keys(map[], [Assignment(PREFIX, prefix)] + later) ==
            Keys(Put(map[], Assignment(PREFIX, prefix)), later)
  {
    KindsOfKeys();
    assert ([Assignment(PREFIX, prefix)] + later)[1..] == later;
    hide KindOf, Put;
    assert [] + ModuleList(later) == ModuleList(later);
  }

  lemma ExpectedMeaning(items: seq<Assignment>, prefix: string, kernel: string, paths: seq<string>)
    requires |ModuleList(items)| == |paths| && ArePaths(paths)
    ensures
      var expected := Expected(items, prefix, kernel, paths);
      && ModuleList(expected) == paths
      && Redirected(Keys(map[], items), Keys(map[], expected), prefix, kernel)
      && PREFIX in Keys(map[], expected)
  {
    var later := RedirectAll(items, prefix, kernel, paths);
    hide ArePaths, RedirectAll, AnyPrefixKey, PREFIX, Keys, ModuleList, Put, Redirected;
    StartRedirected(prefix, kernel);
    RedirectedModules(items, prefix, kernel, paths);
    assert paths[..|paths|] == paths;
    if AnyPrefixKey(items) {
      KeysRedirected(items, map[], map[], prefix, kernel, paths);
      assert [] + later == later;
    } else {
      KeysRedirected(items, map[], map[PREFIX := prefix], prefix, kernel, paths);
      PrefixNoModule(prefix, later);
    }
  }

  /** The rewritten boot.cfg, read again by the same parser, gives the paths as its modules
      in order, the given kernel and prefix, and the source's last value for every other key. */
  lemma RewritePreservesMeaning(raw: string, httpPrefix: string, kernel: string, paths: seq<string>)
    requires BomFree(LogicalLines(raw)) && NoneContinues(LogicalLines(raw))
    requires |ModuleList(Assignments(raw))| == |paths|
    requires IsHttpPrefix(FullPrefix(httpPrefix)) && IsPath(kernel) && ArePaths(paths)
    ensures
      var r := Rewrite(raw, httpPrefix, kernel, paths);
      r.Ok? &&
      var source, target := Keys(map[], Assignments(raw)), Keys(map[], Assignments(r.value));
      && ModuleList(Assignments(r.value)) == paths
      && Redirected(source, target, FullPrefix(httpPrefix), kernel)
      && PREFIX in target
  {
    hide Rewrite, Assignments, Keys, ModuleList, Redirected, Expected, BomFree, NoneContinues, IsPath, ArePaths,
         IsHttpPrefix, FullPrefix, PREFIX, LogicalLines, SplitLines;
    MarkFreeReadsBack(raw, httpPrefix, kernel, paths);
    ExpectedMeaning(Assignments(raw), FullPrefix(httpPrefix), kernel, paths);
  }

  lemma KernelMatched(x: string, prefix: string, kernel: string, left: seq<string>, line: string)
    requires Bared(line) == KERNEL + "=" + x
    ensures RewriteLine(line, prefix, kernel, left) == Written("kernel=" + kernel, 0)
  {
    var s := KERNEL + "=" + x;
    Names();
    KindsOfKeys();
    assert s[0] == 'k' && !IsSpace(s[0]) && Span(IsSpace, s) == 0;
    NameFirst(KERNEL, x);
    hide IsName, Matches, KeyOf, ValueOf, Bared, IsComment, KindOf, Strip;
    WrittenLine(KERNEL, x);
    PatternsAgree(s);
  }

  lemma BomBared(line: string)
    requires Trimmed([BOM] + line) && line != "" && line[0] != BOM
    ensures Bared([BOM] + line) == line && Strip([BOM] + line) == [BOM] + line
  {
    TrimBare(IsSpace, [BOM] + line);
    assert All(IsBom, [BOM]);
    hide All, Strip;
    SpanOf(IsBom, [BOM], line);
  }

  /** A byte order mark hides a kernel line from the parser, not from the rewriter. */
  lemma BomHidesKernel(x: string, prefix: string, kernel: string, left: seq<string>)
    requires Trimmed(x)
    ensures
      var line := [BOM] + ("kernel=" + x);
      && Read(line) == Some(Assignment([BOM] + "kernel", x))
      && RewriteLine(line, prefix, kernel, left) == Written("kernel=" + kernel, 0)
  {
    var name, rest := [BOM] + "kernel", "kernel=" + x;
    var line := [BOM] + rest;
    assert line == name + ("=" + x) && KERNEL + "=" + x == rest;
    assert rest[0] == 'k' && line[0] == BOM;
    assert line[|line| - 1] == if x == "" then '=' else x[|x| - 1];
    BomBared(rest);
    KernelMatched(x, prefix, kernel, left, line);
    BomName(name);
    hide Bared, RewriteLine, All, Lower, KeyOf, ValueOf;
    TrimBare(IsSpace, x);
    hide Strip;
    EqualsIn(name, x);
    ReadCut(name, x);
  }

  /** A boot.cfg of this one line: the parser finds no kernel in it, and the rewriter writes one
      all the same. */
  lemma BomHidesFile(x: string, httpPrefix: string, kernel: string)
    requires Trimmed(x) && OneLine(x) && !IsContinued(x)
    ensures
      var raw := Unlines([[BOM] + ("kernel=" + x)]);
      && KERNEL !in Keys(map[], Assignments(raw))
      && Rewrite(raw, httpPrefix, kernel, []) ==
         Ok(Unlines([HEADER, "prefix=" + FullPrefix(httpPrefix), "kernel=" + kernel]))
  {
    var line, prefix := [BOM] + ("kernel=" + x), FullPrefix(httpPrefix);
    var raw := Unlines([line]);
    hide Read, RewriteLine, Merged, SplitLines, All, KERNEL, HEADER, Unlines, FullPrefix, WritesPrefix, NoBreaks;
    BomLineMerged(x);
    BomHidesKernel(x, prefix, kernel, []);
    KernelLine(x, prefix, kernel);
    BomKey(x);
    ReadOne(line);
    OneWritten("kernel=" + x, prefix, kernel);
    assert [HEADER] + ["prefix=" + prefix] + ["kernel=" + kernel] == [HEADER, "prefix=" + prefix, "kernel=" + kernel];
  }

  lemma ReadOne(line: string)
    requires Read(line).Some?
    ensures ReadLines([line]) == [Read(line).value]
  {
    hide Read;
    assert [line][1..] == [];
  }

  lemma OneWritten(line: string, prefix: string, kernel: string)
    requires RewriteLine(line, prefix, kernel, []) == Written("kernel=" + kernel, 0) && !WritesPrefix(line)
    ensures RewriteLines([line], prefix, kernel, []) == Ok(Pass(["kernel=" + kernel], []))
    ensures !AnyWritesPrefix([line])
  {
    hide RewriteLine, WritesPrefix, RewriteLines;
    assert [line] + [] == [line];
    RewriteCons(line, [], prefix, kernel, []);
    RewriteNothing(prefix, kernel);
    assert ["kernel=" + kernel] + [] == ["kernel=" + kernel];
  }

  lemma RewriteNothing(prefix: string, kernel: string)
    ensures RewriteLines([], prefix, kernel, [][0..]) == Ok(Pass([], []))
  {
  }

  /** The line without its mark. */
  lemma KernelLine(x: string, prefix: string, kernel: string)
    requires Trimmed(x)
    ensures RewriteLine("kernel=" + x, prefix, kernel, []) == Written("kernel=" + kernel, 0)
    ensures !WritesPrefix("kernel=" + x)
  {
    var line := KERNEL + "=" + x;
    Heads();
    KeyLiterals();
    KindsOfKeys();
    assert line[0] == 'k' && BOM != 'k';
    hide IsName, OneLine, RewriteLine, WritesPrefix, Bared, Read, Strip, KindOf, KERNEL, Trimmed, All;
    ReadWritten(KERNEL, x);
    WrittenStays(line);
    NoBomBared(line);
    KernelMatched(x, prefix, kernel, [], line);
    PrefixReads(line);
  }

  lemma WrittenStays(line: string)
    requires Trimmed(line)
    ensures Strip(line) == line
  {
    TrimBare(IsSpace, line);
  }

  lemma BomKey(x: string)
    ensures KERNEL !in Keys(map[], [Assignment([BOM] + "kernel", x)])
  {
  }

  /** The file as the parser and as the rewriter see it. */
  lemma BomLineMerged(x: string)
    requires Trimmed(x) && OneLine(x) && !IsContinued(x)
    ensures
      var raw := Unlines([[BOM] + ("kernel=" + x)]);
      && LogicalLines(raw) == [[BOM] + ("kernel=" + x)]
      && SourceLines(raw) == ["kernel=" + x]
  {
    var rest := "kernel=" + x;
    var line := [BOM] + rest;
    KernelOneLine(x);
    hide All, Merged, IsContinued, SplitLines, NoBreaks, Unlines, TrimLeft;
    OneMerged(line);
    SplitUnlines([rest]);
    OneUnlines(line);
    OneUnlines(rest);
    assert line + "\n" == [BOM] + (rest + "\n");
    assert [BOM] + (rest + "\n") != "" && (rest + "\n")[0] == 'k';
    BomCut(rest + "\n");
  }

  lemma OneMerged(line: string)
    requires All(NotBreak, line) && !IsContinued(line)
    ensures Merged(Unlines([line])) == Unlines([line]) && SplitLines(Unlines([line])) == [line]
  {
    hide All, Merged, MergePieces, IsContinued, NoneContinued, NoBreaks, SplitLines, Unlines;
    OneNotContinued(line);
    MergedFile([line]);
    NoneMerged([line]);
    SplitUnlines([line]);
    assert [line] + [""] == [line, ""];
    OneUnlines(line);
  }

  lemma OneUnlines(line: string)
    ensures Unlines([line]) == line + "\n" && Join("\n", [line, ""]) == line + "\n"
  {
    assert [line, ""][1..] == [""];
  }

  lemma BomCut(s: string)
    requires s != "" && s[0] == 'k'
    ensures TrimLeft(IsBom, [BOM] + s) == s
  {
    assert All(IsBom, [BOM]);
    hide All;
    SpanOf(IsBom, [BOM], s);
  }

  lemma OneNotContinued(line: string)
    requires All(NotBreak, line) && !IsContinued(line)
    ensures NoneContinued([line]) && NoBreaks([line])
  {
    hide All, IsContinued;
  }

  lemma KernelOneLine(x: string)
    requires OneLine(x) && !IsContinued(x)
    ensures All(NotBreak, "kernel=" + x) && All(NotBreak, [BOM] + ("kernel=" + x))
    ensures !IsContinued([BOM] + ("kernel=" + x)) && NoBreaks(["kernel=" + x])
  {
    KeysOneLine();
    assert All(NotBreak, [BOM]);
    var line := [BOM] + ("kernel=" + x);
    assert line[|line| - 1] == if x == "" then '=' else x[|x| - 1];
    hide All;
    AllConcat(NotBreak, "kernel=", x);
    AllConcat(NotBreak, [BOM], "kernel=" + x);
  }

  lemma BomName(name: string)
    requires name == [BOM] + "kernel"
    ensures All(NotEquals, name) && Lower(name) == name && Strip(name) == name
  {
    TrimBare(IsSpace, name);
  }
}
