/** What the parser reads from a refreshed boot.cfg: the prefix of the server, the paths in
    lower case, the kernel options normalised, and every other key as it was. */
module RefreshMeans {
  import opened Text
  import opened Lines
  import opened ConfigLine
  import opened Kernelopt
  import opened KerneloptTwice
  import opened Kickstart
  import opened KickstartLaws
  import opened Modules
  import opened Refresh
  import opened RefreshLaws
  import opened RefreshText
  import opened CommuteLine
  import opened BootCfg
  import opened ReadBack
  import opened BootCfgLaws
  import opened MarkLaws

  // ---- Lines that are not continued -------------------------------------

  /** Neither the line nor the kernel options the refresh writes for it end in a backslash. */
  predicate StaysWhole(line: string) {
    !IsContinued(line) && (IsKernelopt(line) ==> !IsContinued(Normalize(ValueOf(line))))
  }

  predicate StayWhole(lines: seq<string>) {
    forall i :: 0 <= i < |lines| ==> StaysWhole(lines[i])
  }

  lemma WholeAfter(head: string, x: string)
    requires head != "" && !IsContinued(head) && !IsContinued(x)
    ensures !IsContinued(head + x)
  {
  }

  lemma NoBackslashWhole(x: string)
    requires All(NotBackslash, x)
    ensures !IsContinued(x)
  {
    if x != "" { assert NotBackslash(x[|x| - 1]); }
  }

  lemma ModulesNoBackslash(v: string)
    ensures All(NotBackslash, JoinModules(LowerPaths(Segments(v))))
  {
    var parts := LowerPaths(Segments(v));
    assert All(NotBackslash, SEPARATOR);
    hide All, LowerRel, Segments;
    forall i | 0 <= i < |parts| ensures All(NotBackslash, parts[i]) { LowerRelChars(Segments(v)[i]); }
    JoinAll(NotBackslash, SEPARATOR, parts);
  }

  lemma WrittenHeads()
    ensures !IsContinued("kernel=") && !IsContinued("modules=") && !IsContinued("module=")
    ensures !IsContinued("prefix=") && !IsContinued("kernelopt=") && !IsContinued("")
  {
  }

  lemma NormalizedWhole(line: string)
    requires !IsContinued(line)
    ensures !IsContinued(NormalizeLine(line))
  {
    WrittenHeads();
    var v := ValueOf(Bared(line));
    hide IsContinued, Bared, Matches, ValueOf, IsComment, Segments, LowerRel, JoinModules, LowerPaths, All;
    LowerRelChars(v);
    ModulesNoBackslash(v);
    NoBackslashWhole(LowerRel(v));
    NoBackslashWhole(JoinModules(LowerPaths(Segments(v))));
    WholeAfter("kernel=", LowerRel(v));
    WholeAfter("module=", LowerRel(v));
    WholeAfter("modules=", JoinModules(LowerPaths(Segments(v))));
  }

  lemma RefreshedWhole(line: string, base: string)
    requires StaysWhole(line) && !IsContinued(base)
    ensures !IsContinued(RefreshLine(line, base))
  {
    WrittenHeads();
    hide IsContinued, NormalizeLine, ValueOf, IsPrefix, IsKernelopt, Normalize;
    NormalizedWhole(line);
    NormalizedKey(line);
    WholeAfter("prefix=", base);
    if IsKernelopt(line) { WholeAfter("kernelopt=", Normalize(ValueOf(line))); }
  }

  lemma InsertedWhole(lines: seq<string>, base: string)
    requires NoneContinued(lines) && !IsContinued(base)
    ensures NoneContinued(InsertPrefix(lines, base))
  {
    WrittenHeads();
    hide IsContinued, IsComment, Strip;
    WholeAfter("prefix=", base);
  }

  /** No line of the refreshed file is continued. */
  lemma RefreshedLinesWhole(lines: seq<string>, base: string)
    requires StayWhole(lines) && !IsContinued(base)
    ensures NoneContinued(RefreshLines(lines, base))
  {
    var file := FileLines(lines);
    var out := MapLines(NetworkLineOf(base), MapLines(NormalizeLineOf(), file));
    EmptyWhole();
    hide NetworkLine, NormalizeLine, IsContinued, StaysWhole, AnyPrefix, RefreshLine, LeadingComments;
    forall i | 0 <= i < |out| ensures !IsContinued(out[i]) {
      assert StaysWhole(file[i]);
      RefreshedWhole(file[i], base);
      RefreshLineMeans(file[i], base);
    }
    InsertedWhole(out, base);
  }

  lemma RefreshLineMeans(line: string, base: string)
    ensures RefreshLine(line, base) == NetworkLine(NormalizeLine(line), base)
  {
  }

  lemma EmptyWhole()
    ensures StaysWhole("")
  {
    NoKeyInEmpty();
  }

  /** A written file without continued lines is read line by line. */
  lemma ReadLineByLine(lines: seq<string>)
    requires NoBreaks(lines) && lines != [] && NoneContinued(lines)
    ensures Assignments(Unlines(lines)) == ReadLines(lines)
  {
    hide Assignments, Unlines, MergePieces, ReadLines, IsContinued;
    WrittenAssignments(lines);
    NoneMerged(lines);
    ReadConcat(lines, [""]);
    EmptyReads();
    assert ReadLines(lines) + [] == ReadLines(lines);
  }

  /** The refreshed file is read line by line. */
  lemma RefreshedIsRead(text: string, base: string)
    requires StayWhole(SplitLines(text)) && IsHttpPrefix(base)
    ensures Assignments(Refreshed(text, base)) == ReadLines(RefreshLines(SplitLines(text), base))
  {
    assert OneLine(base) && !IsContinued(base);
    hide Assignments, Unlines, ReadLines, IsContinued, All, StayWhole, Refreshed, SplitLines, NetworkLines,
         NormalizeLine;
    var lines := SplitLines(text);
    RefreshedLines(text, base);
    RefreshedLinesWhole(lines, base);
    FileNoBreaks(lines);
    NormalizedOneLine(FileLines(lines));
    NetworkOneLine(MapLines(NormalizeLineOf(), FileLines(lines)), base);
    NetworkNotEmpty(MapLines(NormalizeLineOf(), FileLines(lines)), base);
    ReadLineByLine(RefreshLines(lines, base));
  }

  // ---- The prefix -------------------------------------------------------

  /** The parser finds this prefix, and no prefix under the other name. */
  predicate ReadsPrefix(text: string, prefix: string) {
    var kv := Keys(map[], Assignments(text));
    PREFIX in kv && kv[PREFIX] == prefix && PREFIX_HTTP !in kv
  }

  /** Prefix keys have this value only, under the first of the two names. */
  predicate OnlyPrefix(items: seq<Assignment>, base: string) {
    forall i :: 0 <= i < |items| && KindOf(items[i].key) == PrefixKey ==> items[i] == Assignment(PREFIX, base)
  }

  lemma ReadsKey(line: string)
    requires Read(line).Some?
    ensures '=' in line && KeyOf(line) == Read(line).value.key && ValueOf(line) == Read(line).value.value
  {
    var a, b := TrimSplit(IsSpace, line);
    hide All, Trim, KeyOf, ValueOf, IsComment;
    ReadPadded(a, Strip(line), b);
  }

  /** A written line, whatever follows the key. */
  lemma ReadWrittenLoosely(name: string, x: string)
    requires IsName(name) && name[0] != '#' && name[0] != BOM
    ensures Read(name + "=" + x) == Some(Assignment(name, Strip(x)))
  {
    var line := name + "=" + x;
    var s := Strip(line);
    var a, b := TrimSplit(IsSpace, line);
    hide IsName, IsComment, KeyOf, ValueOf, All, Trim;
    WrittenLine(name, x);
    StripWritten(name, x);
    assert s == name + "=" + RightTrimmed(x);
    NameFirst(name, RightTrimmed(x));
    WrittenLine(name, RightTrimmed(x));
    StripRightTrimmed(x);
  }

  lemma StripWritten(name: string, x: string)
    requires IsName(name)
    ensures Strip(name + "=" + x) == name + "=" + RightTrimmed(x)
  {
    var line := name + "=" + x;
    assert !IsSpace(line[0]);
    assert "" + line == line;
    EmptyAll(IsSpace);
    HeadTrimmed(name + "=");
    hide All, IsName;
    SpanOf(IsSpace, "", line);
    assert TrimLeft(IsSpace, line) == line;
    TrimRightConcat(name + "=", x);
    EmptyTail(name + "=");
  }

  lemma EmptyTail(head: string)
    ensures head + "" == head
  {
  }

  /** What the second pass leaves of prefix keys. */
  lemma NetworkPrefix(n: string, base: string)
    requires Trimmed(base)
    ensures
      var r := Read(NetworkLine(n, base));
      && (r.Some? && KindOf(r.value.key) == PrefixKey ==> r.value == Assignment(PREFIX, base))
      && (IsPrefix(n) ==> r == Some(Assignment(PREFIX, base)))
  {
    Heads();
    KeyLiterals();
    NamesWithPrefix();
    hide IsName, Read, KeyOf, KindOf, Normalize, ValueOf, Trimmed, MatchesIndented, All;
    if IsPrefix(n) {
      ReadWritten(PREFIX, base);
    } else if IsKernelopt(n) {
      ReadWrittenLoosely(KERNELOPT, Normalize(ValueOf(n)));
      KindIs(KERNELOPT);
      NamesDiffer();
    } else if Read(n).Some? {
      ReadsKey(n);
      KeyAgreesIndented(PREFIX, n);
      KeyAgreesIndented(PREFIX_HTTP, n);
      KindIs(KeyOf(n));
    }
  }

  lemma {:induction false} OnlyPrefixLines(lines: seq<string>, base: string)
    requires Trimmed(base)
    ensures
      var items := ReadLines(MapLines(NetworkLineOf(base), lines));
      OnlyPrefix(items, base) && (AnyPrefix(lines) ==> AnyPrefixKey(items))
    decreases |lines|
  {
    hide NetworkLine, IsPrefix, Read, KindOf, Trimmed, OnlyPrefix, AnyPrefixKey, AnyPrefix, ReadLines;
    if lines == [] {
      NoLines(base);
    } else {
      var line, rest := lines[0], lines[1..];
      assert lines == [line] + rest;
      OnlyPrefixLines(rest, base);
      NetworkPrefix(line, base);
      KindsOfKeys();
      AnyPrefixHead(line, rest);
      NetworkCons(line, rest, base);
      OnlyPrefixCons(NetworkLine(line, base), MapLines(NetworkLineOf(base), rest), base);
    }
  }

  lemma NoLines(base: string)
    ensures ReadLines(MapLines(NetworkLineOf(base), [])) == [] && OnlyPrefix([], base) && !AnyPrefix([])
  {
  }

  lemma AnyPrefixHead(line: string, rest: seq<string>)
    ensures AnyPrefix([line] + rest) <==> IsPrefix(line) || AnyPrefix(rest)
  {
    hide IsPrefix;
    var all := [line] + rest;
    assert all[0] == line;
    assert forall i :: 0 <= i < |rest| ==> all[i + 1] == rest[i];
  }

  lemma NetworkCons(line: string, rest: seq<string>, base: string)
    ensures MapLines(NetworkLineOf(base), [line] + rest) ==
            [NetworkLine(line, base)] + MapLines(NetworkLineOf(base), rest)
  {
    hide NetworkLine;
  }

  /** One more line in front of a list of lines. */
  lemma OnlyPrefixCons(line: string, rest: seq<string>, base: string)
    requires OnlyPrefix(ReadLines(rest), base)
    requires Read(line).Some? && KindOf(Read(line).value.key) == PrefixKey ==>
               Read(line).value == Assignment(PREFIX, base)
    ensures
      var items := ReadLines([line] + rest);
      && OnlyPrefix(items, base)
      && (AnyPrefixKey(ReadLines(rest)) ==> AnyPrefixKey(items))
      && (Read(line).Some? && KindOf(Read(line).value.key) == PrefixKey ==> AnyPrefixKey(items))
  {
    hide Read, KindOf, ReadLines, PREFIX;
    ReadCons(line, rest);
    if Read(line).Some? {
      AnyPrefixCons(Read(line).value, ReadLines(rest));
    } else {
      assert [] + ReadLines(rest) == ReadLines(rest);
    }
  }

  /** Where prefix keys have one value, the parser finds it. */
  lemma {:induction false} OnlyPrefixKeys(kv: map<string, string>, items: seq<Assignment>, base: string)
    requires OnlyPrefix(items, base) && PREFIX_HTTP !in kv && (PREFIX in kv ==> kv[PREFIX] == base)
    ensures
      var after := Keys(kv, items);
      && PREFIX_HTTP !in after && (PREFIX in after ==> after[PREFIX] == base)
      && (PREFIX in kv || AnyPrefixKey(items) ==> PREFIX in after)
    decreases |items|
  {
    if items != [] {
      var a, rest := items[0], items[1..];
      hide AnyPrefixKey, PREFIX, PREFIX_HTTP, KindOf;
      OnlyPrefixRest(items, base);
      PutPrefix(kv, a, base);
      OnlyPrefixKeys(Put(kv, a), rest, base);
      assert items == [a] + rest;
      AnyPrefixCons(a, rest);
    }
  }

  lemma OnlyPrefixRest(items: seq<Assignment>, base: string)
    requires items != [] && OnlyPrefix(items, base)
    ensures OnlyPrefix(items[1..], base)
    ensures KindOf(items[0].key) == PrefixKey ==> items[0] == Assignment(PREFIX, base)
  {
    hide KindOf, PREFIX;
    assert forall i :: 0 <= i < |items| - 1 ==> items[1..][i] == items[i + 1];
  }

  lemma PutPrefix(kv: map<string, string>, a: Assignment, base: string)
    requires PREFIX_HTTP !in kv && (PREFIX in kv ==> kv[PREFIX] == base)
    requires KindOf(a.key) == PrefixKey ==> a == Assignment(PREFIX, base)
    ensures
      var after := Put(kv, a);
      && PREFIX_HTTP !in after && (PREFIX in after ==> after[PREFIX] == base)
      && (PREFIX in kv || KindOf(a.key) == PrefixKey ==> PREFIX in after)
  {
    KindsOfKeys();
    NamesDiffer();
    KindIs(a.key);
    hide KindOf, PREFIX, PREFIX_HTTP, KERNEL, KERNELOPT, MODULES, MODULE;
  }

  /** The inserted line is one assignment more, before all others. */
  lemma InsertedReads(out: seq<string>, base: string)
    requires Trimmed(base)
    ensures ReadLines(InsertPrefix(out, base)) == [Assignment(PREFIX, base)] + ReadLines(out)
  {
    var n := LeadingComments(out);
    Heads();
    KeyLiterals();
    hide LeadingComments, ReadLines, Read, Trimmed, PREFIX, IsName;
    ReadWritten(PREFIX, base);
    CommentsRead(out, n);
    ReadConcat(out[..n] + ["prefix=" + base], out[n..]);
    ReadConcat(out[..n], ["prefix=" + base]);
    ReadConcat(out[..n], out[n..]);
    Parted(out, n);
    OneRead("prefix=" + base);
  }

  /** Line n is the first that is no comment. */
  predicate CommentsEnd(out: seq<string>, n: nat) {
    && n <= |out|
    && (forall i :: 0 <= i < n ==> Strip(out[i]) != "" && Strip(out[i])[0] == '#')
    && (n < |out| ==> Strip(out[n]) == "" || Strip(out[n])[0] != '#')
  }

  /** A prefix that no line has goes directly after the comments at the top. */
  lemma InsertedPlace(lines: seq<string>, base: string)
    requires !AnyPrefix(lines)
    ensures
      var out := MapLines(NetworkLineOf(base), lines);
      exists n: nat :: CommentsEnd(out, n) && NetworkLines(lines, base) == out[..n] + ["prefix=" + base] + out[n..]
  {
    hide NetworkLine, Strip, AnyPrefix;
    var out := MapLines(NetworkLineOf(base), lines);
    AtTheTop(out);
    assert CommentsEnd(out, LeadingComments(out));
  }

  lemma {:induction false} AtTheTop(out: seq<string>)
    ensures CommentsEnd(out, LeadingComments(out))
  {
    hide Strip;
    if out != [] && IsComment(Strip(out[0])) {
      AtTheTop(out[1..]);
      assert forall i :: 1 <= i < |out| ==> out[i] == out[1..][i - 1];
    }
  }

  lemma {:induction false} CommentsRead(out: seq<string>, n: nat)
    requires n <= LeadingComments(out)
    ensures n <= |out| && ReadLines(out[..n]) == []
  {
    if n > 0 {
      hide Strip;
      CommentsRead(out[1..], n - 1);
      assert out[..n] == [out[0]] + out[1..][..n - 1];
      ReadCons(out[0], out[1..][..n - 1]);
    }
  }

  /** After a refresh the parser finds exactly the prefix that was asked for. */
  lemma RefreshedPrefix(text: string, base: string)
    requires StayWhole(SplitLines(text)) && IsHttpPrefix(base)
    ensures ReadsPrefix(Refreshed(text, base), base)
  {
    var norm := MapLines(NormalizeLineOf(), FileLines(SplitLines(text)));
    var out := MapLines(NetworkLineOf(base), norm);
    assert Trimmed(base);
    hide Assignments, ReadLines, IsContinued, StayWhole, Refreshed, SplitLines, NormalizeLine, NetworkLine,
         AnyPrefix, InsertPrefix, Trimmed, IsHttpPrefix, PREFIX, PREFIX_HTTP, OnlyPrefix, AnyPrefixKey, Keys;
    RefreshedIsRead(text, base);
    OnlyPrefixLines(norm, base);
    var items := ReadLines(out);
    if AnyPrefix(norm) {
      OnlyPrefixKeys(map[], items, base);
    } else {
      InsertedReads(out, base);
      OnlyPrefixMore(items, base);
      OnlyPrefixKeys(map[], [Assignment(PREFIX, base)] + items, base);
    }
  }

  lemma OnlyPrefixMore(items: seq<Assignment>, base: string)
    requires OnlyPrefix(items, base)
    ensures OnlyPrefix([Assignment(PREFIX, base)] + items, base)
    ensures AnyPrefixKey([Assignment(PREFIX, base)] + items)
  {
    KindsOfKeys();
    hide KindOf, PREFIX;
    AnyPrefixCons(Assignment(PREFIX, base), items);
  }

  // ---- Every assignment -------------------------------------------------

  /** What the refresh makes of one assignment. */
  function RefreshItem(a: Assignment, base: string): Assignment {
    match KindOf(a.key)
    case PrefixKey => Assignment(PREFIX, base)
    case KernelKey => Assignment(KERNEL, Strip(LowerRel(a.value)))
    case OptionKey => Assignment(KERNELOPT, Normalize(a.value))
    case ModulesKey => Assignment(MODULES, Strip(JoinModules(LowerPaths(Segments(a.value)))))
    case ModuleKey => Assignment(MODULE, Strip(LowerRel(a.value)))
    case PlainKey => a
  }

  function RefreshItems(items: seq<Assignment>, base: string): (r: seq<Assignment>)
    ensures |r| == |items| && forall i :: 0 <= i < |items| ==> r[i] == RefreshItem(items[i], base)
  {
    seq(|items|, i requires 0 <= i < |items| => RefreshItem(items[i], base))
  }

  /** A line that assigns something: what the first pass makes of it. */
  lemma NormalizedFor(line: string, a: Assignment)
    requires NoBom(line) && Read(line) == Some(a)
    ensures
      NormalizeLine(line) ==
      match KindOf(a.key)
      case KernelKey => KERNEL + "=" + LowerRel(a.value)
      case ModulesKey => MODULES + "=" + JoinModules(LowerPaths(Segments(a.value)))
      case ModuleKey => MODULE + "=" + LowerRel(a.value)
      case _ => line
  {
    var s := Strip(line);
    KeyLiterals();
    NoBomBared(line);
    BareLine(line);
    ModuleEmpty();
    HeadAlone();
    hide Bared, Matches, KeyOf, ValueOf, IsComment, Segments, LowerRel, Strip, LeftTrimmed, KindOf, JoinModules,
         LowerPaths, KERNEL, MODULES, MODULE, PREFIX, PREFIX_HTTP, KERNELOPT;
    PatternsAgree(s);
  }

  lemma HeadAlone()
    ensures MODULE + "=" + "" == "module="
  {
  }

  /** The second pass recognises the lines the parser does. */
  lemma KeysSeen(line: string, a: Assignment)
    requires Read(line) == Some(a)
    ensures IsPrefix(line) <==> KindOf(a.key) == PrefixKey
    ensures IsKernelopt(line) <==> KindOf(a.key) == OptionKey
    ensures ValueOf(line) == a.value
  {
    Names();
    hide Read, KeyOf, ValueOf, MatchesIndented, IsName, KindOf, PREFIX, PREFIX_HTTP, KERNELOPT;
    ReadsKey(line);
    KeyAgreesIndented(PREFIX, line);
    KeyAgreesIndented(PREFIX_HTTP, line);
    KeyAgreesIndented(KERNELOPT, line);
    KindIs(a.key);
  }

  lemma PathLineReads(name: string, x: string, base: string)
    requires name in [KERNEL, MODULES, MODULE]
    ensures Read(NetworkLine(name + "=" + x, base)) == Some(Assignment(name, Strip(x)))
  {
    Heads();
    hide Read, IsPrefix, IsKernelopt, Strip, IsName, All, KERNEL, MODULES, MODULE;
    NotKey(name, x);
    ReadWrittenLoosely(name, x);
  }

  lemma RefreshReadsSome(line: string, a: Assignment, base: string)
    requires NoBom(line) && Read(line) == Some(a) && Trimmed(base)
    ensures Read(RefreshLine(line, base)) == Some(RefreshItem(a, base))
  {
    hide Read, NormalizeLine, IsPrefix, IsKernelopt, KindOf, LowerRel, JoinModules, LowerPaths, Segments, Strip,
         Normalize, ValueOf, NoBom, Trimmed, KERNEL, MODULES, MODULE, PREFIX, KERNELOPT;
    NormalizedFor(line, a);
    KeysSeen(line, a);
    match KindOf(a.key)
    case PrefixKey => NetworkPrefix(line, base);
    case KernelKey => PathLineReads(KERNEL, LowerRel(a.value), base);
    case OptionKey =>
      KeyLiterals();
      OptionWritten(a.value);
    case ModulesKey => PathLineReads(MODULES, JoinModules(LowerPaths(Segments(a.value))), base);
    case ModuleKey => PathLineReads(MODULE, LowerRel(a.value), base);
    case PlainKey =>
  }

  lemma BaredInside(line: string)
    ensures Strip(line) == "" ==> Bared(line) == ""
    ensures IsComment(Strip(line)) ==> Bared(line) == Strip(line)
    ensures '=' !in line ==> '=' !in Bared(line)
  {
    var s := Strip(line);
    var a, b := TrimSplit(IsSpace, line);
    assert IsComment(s) ==> Span(IsBom, s) == 0;
    hide Strip, Trim, Span;
  }

  lemma MatchesHasEquals(name: string, s: string)
    requires Matches(name, s)
    ensures '=' in s
  {
    var rest := TrimLeft(IsSpace, s[|name|..]);
    var n := Span(IsSpace, s[|name|..]);
    hide Span;
    assert s[|name| + n] == rest[0] == '=';
  }

  /** A line that assigns nothing stays, or becomes empty. */
  lemma RefreshReadsNone(line: string, base: string)
    requires Read(line) == None
    ensures Read(RefreshLine(line, base)) == None
  {
    EmptyReads();
    NoKeyInEmpty();
    hide Read, IsPrefix, IsKernelopt, NormalizeLine, ValueOf, Normalize;
    NoneNormal(line);
    NoneNoKey(line);
  }

  lemma NoneHasEquals(line: string)
    requires Read(line) == None && '=' in line
    ensures Strip(line) == "" || IsComment(Strip(line))
  {
    var a, b := TrimSplit(IsSpace, line);
    hide IsComment, Trim, All, KeyOf, ValueOf;
    if '=' !in Strip(line) { PaddedNoEquals(a, Strip(line), b); }
  }

  lemma NoneNormal(line: string)
    requires Read(line) == None
    ensures NormalizeLine(line) == "" || NormalizeLine(line) == line
  {
    BaredInside(line);
    if '=' in line { NoneHasEquals(line); }
    hide Read, Strip, Bared, Matches, ValueOf, LowerRel, Segments;
    var s := Bared(line);
    if Matches(KERNEL, s) { MatchesHasEquals(KERNEL, s); }
    if Matches(MODULES, s) { MatchesHasEquals(MODULES, s); }
    if Matches(MODULE, s) { MatchesHasEquals(MODULE, s); }
  }

  lemma NoneNoKey(line: string)
    requires Read(line) == None
    ensures !IsPrefix(line) && !IsKernelopt(line)
  {
    BaredInside(line);
    if '=' in line { NoneHasEquals(line); }
    hide Read, Strip, Bared, Matches, IsComment, KERNELOPT, PREFIX, PREFIX_HTTP;
    forall name | name in [KERNELOPT, PREFIX, PREFIX_HTTP] && MatchesIndented(name, line) ensures false {
      KeyLineBared(name, line);
      MatchesHasEquals(name, Bared(line));
    }
  }

  lemma {:induction false} LinesRead(lines: seq<string>, base: string)
    requires BomFree(lines) && Trimmed(base)
    ensures ReadLines(MapLines(RefreshLineOf(base), lines)) == RefreshItems(ReadLines(lines), base)
    decreases |lines|
  {
    if lines == [] {
      assert MapLines(RefreshLineOf(base), lines) == [];
    } else {
      var line, rest := lines[0], lines[1..];
      assert lines == [line] + rest && NoBom(line);
      assert BomFree(rest) by { assert forall i :: 0 <= i < |rest| ==> rest[i] == lines[i + 1]; }
      hide Read, RefreshLine, RefreshItem, ReadLines, NoBom, BomFree, Trimmed;
      LinesRead(rest, base);
      RefreshCons(line, rest, base);
      ReadCons(line, rest);
      ReadCons(RefreshLine(line, base), MapLines(RefreshLineOf(base), rest));
      match Read(line)
      case Some(a) =>
        RefreshReadsSome(line, a, base);
        ItemsCons(a, ReadLines(rest), base);
      case None =>
        RefreshReadsNone(line, base);
        assert [] + ReadLines(rest) == ReadLines(rest);
        assert [] + RefreshItems(ReadLines(rest), base) == RefreshItems(ReadLines(rest), base);
    }
  }

  lemma RefreshCons(line: string, rest: seq<string>, base: string)
    ensures MapLines(RefreshLineOf(base), [line] + rest) ==
            [RefreshLine(line, base)] + MapLines(RefreshLineOf(base), rest)
  {
    hide RefreshLine;
  }

  lemma ItemsCons(a: Assignment, rest: seq<Assignment>, base: string)
    ensures RefreshItems([a] + rest, base) == [RefreshItem(a, base)] + RefreshItems(rest, base)
  {
    hide RefreshItem;
  }

  lemma {:induction false} PrefixLinesRead(lines: seq<string>)
    ensures AnyPrefix(lines) <==> AnyPrefixKey(ReadLines(lines))
    decreases |lines|
  {
    if lines != [] {
      var line, rest := lines[0], lines[1..];
      assert lines == [line] + rest;
      hide Read, IsPrefix, ReadLines, AnyPrefix, AnyPrefixKey, KindOf, IsKernelopt;
      PrefixLinesRead(rest);
      AnyPrefixHead(line, rest);
      ReadCons(line, rest);
      if Read(line).Some? {
        KeysSeen(line, Read(line).value);
        AnyPrefixCons(Read(line).value, ReadLines(rest));
      } else {
        NoneNoKey(line);
        assert [] + ReadLines(rest) == ReadLines(rest);
      }
    }
  }

  lemma PrefixKept(lines: seq<string>)
    ensures AnyPrefix(MapLines(NormalizeLineOf(), lines)) <==> AnyPrefix(lines)
  {
    var norm := MapLines(NormalizeLineOf(), lines);
    hide IsPrefix, NormalizeLine;
    forall i | 0 <= i < |lines| ensures IsPrefix(norm[i]) <==> IsPrefix(lines[i]) {
      RefreshKeepsKey(lines[i], "");
    }
  }

  lemma TwoPasses(lines: seq<string>, base: string)
    ensures MapLines(NetworkLineOf(base), MapLines(NormalizeLineOf(), lines)) ==
            MapLines(RefreshLineOf(base), lines)
  {
    hide NetworkLine, NormalizeLine;
  }

  lemma FileReads(lines: seq<string>)
    requires BomFree(lines)
    ensures BomFree(FileLines(lines)) && ReadLines(FileLines(lines)) == ReadLines(lines)
  {
    EmptyReads();
    assert ReadLines([]) == [];
    hide Read, ReadLines;
  }

  lemma RefreshLinesAre(lines: seq<string>, base: string)
    ensures
      var file := FileLines(lines);
      var out := MapLines(RefreshLineOf(base), file);
      RefreshLines(lines, base) == if AnyPrefix(file) then out else InsertPrefix(out, base)
  {
    hide NormalizeLine, NetworkLine, RefreshLine, AnyPrefix, InsertPrefix, FileLines;
    TwoPasses(FileLines(lines), base);
    PrefixKept(FileLines(lines));
  }

  /** What a refresh means, line for line: the assignments of the file, in order, with its own
      prefix, the paths in lower case and the kernel options normalised; and the prefix in front
      when the file has none. */
  lemma RefreshReads(text: string, base: string)
    requires StayWhole(SplitLines(text)) && BomFree(SplitLines(text)) && IsHttpPrefix(base)
    ensures
      var items := ReadLines(SplitLines(text));
      Assignments(Refreshed(text, base)) ==
      (if AnyPrefixKey(items) then [] else [Assignment(PREFIX, base)]) + RefreshItems(items, base)
  {
    var lines := SplitLines(text);
    var file := FileLines(lines);
    var out := MapLines(RefreshLineOf(base), file);
    assert Trimmed(base);
    hide Assignments, ReadLines, StayWhole, Refreshed, SplitLines, BomFree, RefreshLine, RefreshLines, MapLines,
         AnyPrefix, InsertPrefix, Trimmed, IsHttpPrefix, PREFIX, AnyPrefixKey, RefreshItem, RefreshItems, FileLines;
    RefreshedIsRead(text, base);
    FileReads(lines);
    RefreshLinesAre(lines, base);
    PrefixLinesRead(file);
    LinesRead(file, base);
    if AnyPrefix(file) {
      assert [] + RefreshItems(ReadLines(lines), base) == RefreshItems(ReadLines(lines), base);
    } else {
      InsertedReads(out, base);
    }
  }

  // ---- The keys ---------------------------------------------------------

  /** The keys the parser finds before and after a refresh. */
  ghost predicate RefreshedKeys(source: map<string, string>, target: map<string, string>, base: string) {
    && (PREFIX in target ==> target[PREFIX] == base) && PREFIX_HTTP !in target
    && (KERNEL in target <==> KERNEL in source)
    && (KERNEL in target ==> target[KERNEL] == Strip(LowerRel(source[KERNEL])))
    && (KERNELOPT in target <==> KERNELOPT in source)
    && (KERNELOPT in target ==> target[KERNELOPT] == Normalize(source[KERNELOPT]))
    && (forall key :: KindOf(key) == PlainKey ==> (key in target <==> key in source))
    && (forall key :: KindOf(key) == PlainKey && key in target ==> target[key] == source[key])
  }

  lemma PutRefreshed(source: map<string, string>, target: map<string, string>, a: Assignment, base: string)
    requires RefreshedKeys(source, target, base)
    ensures
      var after := Put(target, RefreshItem(a, base));
      && RefreshedKeys(Put(source, a), after, base)
      && (PREFIX in target || KindOf(a.key) == PrefixKey ==> PREFIX in after)
  {
    KindsOfKeys();
    NamesDiffer();
    KindIs(a.key);
    hide KindOf, JoinModules, LowerPaths, LowerRel, Strip, Normalize, Segments, PREFIX, PREFIX_HTTP, KERNEL, KERNELOPT,
         MODULES, MODULE;
  }

  lemma {:induction false} KeysRefreshed(items: seq<Assignment>, source: map<string, string>,
                                         target: map<string, string>, base: string)
    requires RefreshedKeys(source, target, base)
    ensures
      var after := Keys(target, RefreshItems(items, base));
      && RefreshedKeys(Keys(source, items), after, base)
      && (PREFIX in target || AnyPrefixKey(items) ==> PREFIX in after)
    decreases |items|
  {
    if items != [] {
      var a, rest := items[0], items[1..];
      hide RefreshItem, RefreshedKeys, Put, AnyPrefixKey, KindOf, PREFIX;
      assert items == [a] + rest;
      PutRefreshed(source, target, a, base);
      KeysRefreshed(rest, Put(source, a), Put(target, RefreshItem(a, base)), base);
      AnyPrefixCons(a, rest);
      assert RefreshItems(items, base)[1..] == RefreshItems(rest, base);
    } else {
      assert !AnyPrefixKey(items);
    }
  }

  /** After a refresh the parser finds the prefix of the server, the same kernel path in lower
      case, the same options normalised, and every other key as before. */
  lemma RefreshMeaning(text: string, base: string)
    requires StayWhole(SplitLines(text)) && BomFree(SplitLines(text)) && IsHttpPrefix(base)
    ensures
      var items := ReadLines(SplitLines(text));
      var target := Keys(map[], Assignments(Refreshed(text, base)));
      PREFIX in target && RefreshedKeys(Keys(map[], items), target, base)
  {
    var items := ReadLines(SplitLines(text));
    hide Assignments, ReadLines, StayWhole, Refreshed, SplitLines, BomFree, IsHttpPrefix, PREFIX, AnyPrefixKey,
         RefreshItem, Keys, RefreshedKeys;
    RefreshReads(text, base);
    if AnyPrefixKey(items) {
      NothingRefreshed(map[], base);
      KeysRefreshed(items, map[], map[], base);
      assert [] + RefreshItems(items, base) == RefreshItems(items, base);
    } else {
      NothingRefreshed(map[PREFIX := base], base);
      KeysRefreshed(items, map[], map[PREFIX := base], base);
      PrefixFirst(RefreshItems(items, base), base);
    }
  }

  lemma NothingRefreshed(target: map<string, string>, base: string)
    requires target == map[] || target == map[PREFIX := base]
    ensures RefreshedKeys(map[], target, base)
  {
    KindsOfKeys();
    NamesDiffer();
    hide KindOf, PREFIX, PREFIX_HTTP, KERNEL, KERNELOPT;
  }

  lemma PrefixFirst(items: seq<Assignment>, base: string)
    ensures Keys(map[], [Assignment(PREFIX, base)] + items) == Keys(map[PREFIX := base], items)
  {
    KindsOfKeys();
    hide KindOf, PREFIX;
    assert ([Assignment(PREFIX, base)] + items)[1..] == items;
    assert Put(map[], Assignment(PREFIX, base)) == map[PREFIX := base];
  }

  // ---- A prefix the parser does not find --------------------------------

  const OPEN := "x=a\\"

  lemma OpenLine()
    ensures OneLine(OPEN) && IsContinued(OPEN) && Continued(OPEN) == "x=a"
    ensures Read(OPEN) == Some(Assignment("x", "a\\")) && NoBom(OPEN)
  {
    OpenRead();
    OpenCut();
    hide Read;
  }

  lemma OpenCut()
    ensures IsContinued(OPEN) && Continued(OPEN) == "x=a"
  {
    assert "x=a" + "" == "x=a" && OPEN[..3] == "x=a";
    EmptyAll(IsSpace);
    hide All;
    KeptOf(IsSpace, "x=a", "");
  }

  lemma OpenRead()
    ensures Read(OPEN) == Some(Assignment("x", "a\\")) && NoBom(OPEN)
  {
    LooseEndCut();
    assert OPEN[0] == 'x' && OPEN[1] == '=' && OPEN[3] == '\\' && |OPEN| == 4;
    TrimBare(IsSpace, OPEN);
    hide KeyOf, ValueOf, Trim;
  }

  lemma OpenRefreshes(base: string)
    ensures RefreshLine(OPEN, base) == OPEN
  {
    OpenLine();
    PlainX();
    hide OPEN, Read, IsContinued, NoBom, KindOf, IsPrefix, IsKernelopt, NormalizeLine, ValueOf, Normalize;
    NormalizedFor(OPEN, Assignment("x", "a\\"));
    KeysSeen(OPEN, Assignment("x", "a\\"));
  }

  lemma JoinedReads(base: string)
    requires Trimmed(base)
    ensures Read("x=a" + ("prefix=" + base)) == Some(Assignment("x", "aprefix=" + base))
  {
    var x := "aprefix=" + base;
    assert x == "a" + ("prefix=" + base);
    assert "x=a" + ("prefix=" + base) == "x" + "=" + x;
    assert IsName("x") && "x"[0] != '#' && "x"[0] != BOM;
    assert Trimmed(x);
    hide Read, IsName;
    ReadWritten("x", x);
  }

  /** A continued line and the one after it become one. */
  lemma TwoMerge(first: string, line: string)
    requires OneLine(first) && OneLine(line) && IsContinued(first) && !IsContinued(line)
    ensures MergePieces([first, line] + [""], "") == [Continued(first) + line, ""]
  {
    hide IsContinued, All, MergePieces, Continued;
    EmptyTail(Continued(first));
    assert "" + Continued(first) == Continued(first);
    MergeStep(first, [line, ""], "");
    MergeStep(line, [""], Continued(first));
    MergeLast("");
    assert [first, line] + [""] == [first] + [line, ""];
    assert [line, ""] == [line] + [""];
  }

  lemma OpenMerges(base: string)
    requires OneLine("prefix=" + base) && !IsContinued(base)
    ensures MergePieces([OPEN, "prefix=" + base] + [""], "") == ["x=a" + ("prefix=" + base), ""]
  {
    WrittenHeads();
    OpenLine();
    hide OPEN, IsContinued, All, MergePieces, Continued;
    WholeAfter("prefix=", base);
    TwoMerge(OPEN, "prefix=" + base);
  }

  /** When the line before ends in a backslash the parser joins the refreshed prefix to it and
      finds none. */
  lemma SwallowedPrefix(y: string, base: string)
    requires OneLine(y) && IsHttpPrefix(base)
    ensures PREFIX !in Keys(map[], Assignments(Refreshed(Unlines([OPEN, "prefix=" + y]), base)))
  {
    var lines, out := [OPEN, "prefix=" + y], [OPEN, "prefix=" + base];
    assert Trimmed(base) && OneLine(base) && !IsContinued(base);
    hide All, OPEN, Read, Assignments, Refreshed, Unlines, SplitLines, IsContinued, NoBreaks, MergePieces, IsHttpPrefix,
         Trimmed, PREFIX, Keys, ReadLines;
    OpenOneLine(y);
    OpenOneLine(base);
    SplitUnlines(lines);
    RefreshedLines(Unlines(lines), base);
    OpenFile(y, base);
    WrittenAssignments(out);
    OpenMerges(base);
    JoinedReads(base);
    OpenKeys("x=a" + ("prefix=" + base), Assignment("x", "aprefix=" + base));
  }

  lemma OpenOneLine(y: string)
    requires OneLine(y)
    ensures OneLine("prefix=" + y) && NoBreaks([OPEN, "prefix=" + y])
  {
    OpenLine();
    HeadsOneLine();
    hide All, OPEN, IsContinued, Read;
    AllConcat(NotBreak, "prefix=", y);
  }

  lemma OpenFile(y: string, base: string)
    ensures RefreshLines([OPEN, "prefix=" + y], base) == [OPEN, "prefix=" + base]
  {
    var lines := [OPEN, "prefix=" + y];
    hide RefreshLine, IsPrefix, NormalizeLine, NetworkLine, OPEN;
    OpenRefreshes(base);
    PrefixAgain(y, base);
    WrittenPrefix(y);
    assert IsPrefix(lines[1]);
    RefreshLinesAre(lines, base);
  }

  lemma OpenKeys(line: string, a: Assignment)
    requires Read(line) == Some(a) && a.key == "x"
    ensures PREFIX !in Keys(map[], ReadLines([line, ""]))
  {
    PlainX();
    assert |PREFIX| == 6;
    EmptyReads();
    hide Read, KindOf, PREFIX;
    ReadCons(line, [""]);
    assert [line, ""] == [line] + [""];
    assert ReadLines([line, ""]) == [a];
    assert Keys(map[], [a]) == Put(map[], a);
  }
}
