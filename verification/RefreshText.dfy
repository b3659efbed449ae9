/** Whole files refreshed twice. */
module RefreshText {
  import opened Text
  import opened Lines
  import opened Url
  import opened ConfigLine
  import opened Kernelopt
  import opened KerneloptWords
  import opened KerneloptTwice
  import opened Kickstart
  import opened KickstartLaws
  import opened NetworkLaws
  import opened Modules
  import opened Refresh
  import opened RefreshLaws

  /** Both passes on one line. */
  function RefreshLine(line: string, base: string): string {
    NetworkLine(NormalizeLine(line), base)
  }

  function RefreshLineOf(base: string): string -> string { line => RefreshLine(line, base) }

  /** A file always has a first line once it has been written back. */
  function FileLines(lines: seq<string>): seq<string> {
    if lines == [] then [""] else lines
  }

  function RefreshLines(lines: seq<string>, base: string): seq<string> {
    NetworkLines(MapLines(NormalizeLineOf(), FileLines(lines)), base)
  }

  // ---- One line ---------------------------------------------------------

  /** Only a line the normaliser leaves alone can be a prefix or kernelopt line. */
  lemma NormalizedKey(line: string)
    ensures IsPrefix(NormalizeLine(line)) || IsKernelopt(NormalizeLine(line)) ==>
            NormalizeLine(line) == line && SettledPaths(line)
  {
    Names();
    var s := Bared(line);
    hide Bared, Matches, ValueOf, Trimmed, LowerRel, Segments, IsComment, JoinModules, SettledModules,
         MatchesIndented, IsName;
    assert KERNEL + "=" == "kernel=" && MODULES + "=" == "modules=" && MODULE + "=" == "module=";
    if s == "" {
      NoKeyInEmpty();
    } else if IsComment(s) {
    } else if Matches(KERNEL, s) {
      NotKey(KERNEL, LowerRel(ValueOf(s)));
    } else if Matches(MODULES, s) {
      NotKey(MODULES, JoinModules(LowerPaths(Segments(ValueOf(s)))));
    } else if Matches(MODULE, s) {
      NotKey(MODULE, LowerRel(ValueOf(s)));
      NotKey(MODULE, "");
      assert "module=" + "" == "module=";
    }
  }

  lemma NotKey(name: string, x: string)
    requires name in [KERNEL, MODULES, MODULE]
    ensures !IsPrefix(name + "=" + x) && !IsKernelopt(name + "=" + x)
  {
    Names();
    hide MatchesIndented, IsName;
    WrittenName(name, PREFIX, x);
    WrittenName(name, PREFIX_HTTP, x);
    WrittenName(name, KERNELOPT, x);
  }

  lemma NoKeyInEmpty()
    ensures !IsPrefix("") && !IsKernelopt("")
  {
    EmptyNoMatch(PREFIX);
    EmptyNoMatch(PREFIX_HTTP);
    EmptyNoMatch(KERNELOPT);
  }

  lemma WrittenPrefix(base: string)
    ensures IsPrefix("prefix=" + base) && NormalizeLine("prefix=" + base) == "prefix=" + base
  {
    Names();
    hide MatchesIndented, IsName, NormalizeLine;
    assert PREFIX + "=" == "prefix=";
    WrittenName(PREFIX, PREFIX, base);
    NormalizeWritten(PREFIX, base);
  }

  lemma WrittenOption(x: string)
    ensures IsKernelopt("kernelopt=" + x) && !IsPrefix("kernelopt=" + x)
    ensures NormalizeLine("kernelopt=" + x) == "kernelopt=" + x
    ensures ValueOf("kernelopt=" + x) == Strip(x)
  {
    Names();
    hide MatchesIndented, IsName, NormalizeLine, ValueOf, Strip;
    assert KERNELOPT + "=" == "kernelopt=";
    WrittenName(KERNELOPT, KERNELOPT, x);
    WrittenName(KERNELOPT, PREFIX, x);
    WrittenName(KERNELOPT, PREFIX_HTTP, x);
    NormalizeWritten(KERNELOPT, x);
    WrittenKernelopt(x);
  }

  /** The kernelopt value of this line, if it has one, can be normalised in one pass. */
  predicate SettledKernelopt(line: string) {
    IsKernelopt(line) ==> SettledOption(ValueOf(line))
  }

  /** The kernelopt value of this line, if it has one, holds nothing to decode. */
  predicate SmoothKernelopt(line: string) {
    IsKernelopt(line) ==> SmoothOption(ValueOf(line))
  }

  predicate LineSettled(line: string) { SettledPaths(line) && SettledKernelopt(line) }

  lemma NormalizeIsTrimmed(kopt: string)
    ensures Strip(Normalize(kopt)) == Normalize(kopt)
  {
    hide NetworkTokens, AreTokens, Strip;
    JoinTrimmed(NetworkTokens(kopt));
  }

  /** One line refreshed for two bases. */
  lemma RefreshLineAgain(line: string, first: string, second: string)
    requires SmoothKernelopt(line)
    ensures RefreshLine(RefreshLine(line, first), second) == RefreshLine(line, second) <==>
            LineSettled(line)
  {
    var n := NormalizeLine(line);
    hide IsPrefix, IsKernelopt, ValueOf, NormalizeLine, SettledPaths, SettledOption, SmoothOption,
         Normalize, Strip;
    NormalizedKey(line);
    OneKey(line);
    KerneloptNormal(line);
    if IsPrefix(n) {
      WrittenPrefix(first);
    } else if IsKernelopt(n) {
      var k := Normalize(ValueOf(n));
      WrittenOption(k);
      NormalizeIsTrimmed(ValueOf(n));
      NormalizeTwice(ValueOf(n));
      SameText("kernelopt=", Normalize(k), k);
    } else {
      NormalizeAgain(line);
      NormalizedNoKey(line);
    }
  }

  lemma KerneloptNormal(line: string)
    ensures IsKernelopt(line) ==> NormalizeLine(line) == line
  {
    hide MatchesIndented, NormalizeLine;
    if IsKernelopt(line) { KeyLineNormal(KERNELOPT, line); }
  }

  lemma NormalizedNoKey(line: string)
    requires !IsPrefix(NormalizeLine(line)) && !IsKernelopt(NormalizeLine(line))
    ensures !IsPrefix(NormalizeLine(NormalizeLine(line)))
    ensures !IsKernelopt(NormalizeLine(NormalizeLine(line)))
  {
    hide IsPrefix, IsKernelopt, NormalizeLine, SettledPaths;
    NormalizedKey(NormalizeLine(line));
  }

  // ---- Files as lists of lines ------------------------------------------

  lemma {:induction false} SegmentsOneLine(v: string)
    requires OneLine(v)
    ensures forall i :: 0 <= i < |Segments(v)| ==> OneLine(Segments(v)[i])
    decreases |v|
  {
    var n := FindDashes(v);
    AllConcat(NotBreak, v[..n], v[n..]);
    assert v[..n] + v[n..] == v;
    hide All, Segments, FindDashes, Strip;
    SegmentsCut(v, n);
    TrimKeepsAll(NotBreak, IsSpace, v[..n]);
    if n < |v| {
      AllConcat(NotBreak, v[..n + 3], v[n + 3..]);
      assert v[..n + 3] + v[n + 3..] == v;
      SegmentsOneLine(v[n + 3..]);
    } else {
      assert v[..n] == v;
    }
  }

  lemma LowerRelOneLine(x: string)
    requires OneLine(x)
    ensures OneLine(LowerRel(x))
  {
    TrimKeepsAll(NotBreak, IsSpace, x);
    var s := Strip(x);
    hide Trim;
    assert OneLine(Slashed(s)) by {
      forall i | 0 <= i < |s| ensures NotBreak(Slashed(s)[i]) { assert NotBreak(s[i]); }
    }
    TrimKeepsAll(NotBreak, IsSlash, Slashed(s));
    var m := Trim(IsSlash, Slashed(s));
    forall i | 0 <= i < |m| ensures NotBreak(Lower(m)[i]) { assert NotBreak(m[i]); }
  }

  lemma ValueOneLine(line: string)
    requires OneLine(line)
    ensures OneLine(ValueOf(line))
  {
    var n := Span(NotEquals, line);
    assert OneLine("");
    if n < |line| {
      AllConcat(NotBreak, line[..n + 1], line[n + 1..]);
      assert line[..n + 1] + line[n + 1..] == line;
    }
    hide All, Trim;
    TrimKeepsAll(NotBreak, IsSpace, After(NotEquals, line));
  }

  lemma BaredOneLine(line: string)
    requires OneLine(line)
    ensures OneLine(Bared(line))
  {
    TrimKeepsAll(NotBreak, IsSpace, line);
    var s := Strip(line);
    var n := Span(IsBom, s);
    hide All, Trim;
    AllConcat(NotBreak, s[..n], s[n..]);
    assert s[..n] + s[n..] == s;
  }

  lemma KeysOneLine()
    ensures OneLine("") && OneLine("kernel=") && OneLine("modules=") && OneLine("module=")
    ensures OneLine(SEPARATOR) && OneLine("prefix=") && OneLine("kernelopt=")
  {
  }

  lemma NormalizeOneLine(line: string)
    requires OneLine(line)
    ensures OneLine(NormalizeLine(line))
  {
    KeysOneLine();
    hide All, Bared, Matches, ValueOf, LowerRel, Segments, IsComment;
    var s := Bared(line);
    BaredOneLine(line);
    ValueOneLine(s);
    LowerRelOneLine(ValueOf(s));
    AllConcat(NotBreak, "kernel=", LowerRel(ValueOf(s)));
    AllConcat(NotBreak, "module=", LowerRel(ValueOf(s)));
    ModulesOneLine(ValueOf(s));
    AllConcat(NotBreak, "modules=", JoinModules(LowerPaths(Segments(ValueOf(s)))));
  }

  lemma ModulesOneLine(v: string)
    requires OneLine(v)
    ensures OneLine(JoinModules(LowerPaths(Segments(v))))
  {
    KeysOneLine();
    hide All, Segments, LowerRel;
    SegmentsOneLine(v);
    var parts := Segments(v);
    forall i | 0 <= i < |parts| ensures OneLine(LowerPaths(parts)[i]) { LowerRelOneLine(parts[i]); }
    JoinAll(NotBreak, SEPARATOR, LowerPaths(parts));
  }

  lemma OptionOneLine(kopt: string)
    ensures OneLine("kernelopt=" + Normalize(kopt))
  {
    var ts := NetworkTokens(kopt);
    KsPrefixOneLine();
    hide NetworkTokens, IsToken, All;
    forall i | 0 <= i < |ts| ensures OneLine(ts[i]) {
      assert IsToken(ts[i]);
      TokenHasNoBreak(ts[i]);
    }
    JoinAll(NotBreak, " ", ts);
    AllConcat(NotBreak, "kernelopt=", Normalize(kopt));
  }

  lemma RefreshLineOneLine(line: string, base: string)
    requires OneLine(line) && OneLine(base)
    ensures OneLine(NetworkLine(line, base))
  {
    KeysOneLine();
    hide All, IsPrefix, IsKernelopt, Normalize, ValueOf;
    AllConcat(NotBreak, "prefix=", base);
    OptionOneLine(ValueOf(line));
  }

  lemma NormalizedOneLine(lines: seq<string>)
    requires NoBreaks(lines)
    ensures NoBreaks(MapLines(NormalizeLineOf(), lines))
  {
    hide All, NormalizeLine;
    forall i | 0 <= i < |lines| ensures OneLine(NormalizeLine(lines[i])) {
      NormalizeOneLine(lines[i]);
    }
  }

  lemma NetworkOneLine(lines: seq<string>, base: string)
    requires NoBreaks(lines) && OneLine(base)
    ensures NoBreaks(NetworkLines(lines, base))
  {
    KeysOneLine();
    hide All, NetworkLine, AnyPrefix, LeadingComments;
    AllConcat(NotBreak, "prefix=", base);
    var out := MapLines(NetworkLineOf(base), lines);
    forall i | 0 <= i < |lines| ensures OneLine(out[i]) {
      RefreshLineOneLine(lines[i], base);
    }
    InsertOneLine(out, base);
  }

  lemma InsertOneLine(out: seq<string>, base: string)
    requires NoBreaks(out) && OneLine("prefix=" + base)
    ensures NoBreaks(InsertPrefix(out, base))
  {
    hide All, LeadingComments;
    var all := InsertPrefix(out, base);
    var n := LeadingComments(out);
    forall i | 0 <= i < |all| ensures OneLine(all[i]) {
      assert all[i] == if i < n then out[i] else if i == n then "prefix=" + base else out[i - 1];
    }
  }

  /** The file a refresh writes, line by line. */
  lemma RefreshedLines(text: string, base: string)
    ensures Refreshed(text, base) == Unlines(RefreshLines(SplitLines(text), base))
    ensures OneLine(base) ==>
            SplitLines(Refreshed(text, base)) == RefreshLines(SplitLines(text), base)
  {
    var lines := SplitLines(text);
    var norm := MapLines(NormalizeLineOf(), FileLines(lines));
    hide All, NoBreaks, NetworkLines, NormalizeLineOf, Unlines;
    FileNoBreaks(lines);
    NormalizedOneLine(FileLines(lines));
    NormalizedFile(lines);
    SplitUnlines(norm);
    if OneLine(base) {
      NetworkOneLine(norm, base);
      NetworkNotEmpty(norm, base);
      SplitUnlines(NetworkLines(norm, base));
    }
  }

  lemma FileNoBreaks(lines: seq<string>)
    requires NoBreaks(lines)
    ensures NoBreaks(FileLines(lines))
  {
  }

  lemma NormalizedFile(lines: seq<string>)
    ensures Unlines(MapLines(NormalizeLineOf(), lines)) ==
            Unlines(MapLines(NormalizeLineOf(), FileLines(lines)))
  {
    EmptyLine();
    hide NormalizeLine;
    if lines == [] {
      var one := MapLines(NormalizeLineOf(), [""]);
      assert one[0] == NormalizeLine("");
      assert one == [""];
    }
  }

  lemma NetworkNotEmpty(lines: seq<string>, base: string)
    ensures |NetworkLines(lines, base)| == |lines| + if AnyPrefix(lines) then 0 else 1
  {
  }

  // ---- Refreshing twice -------------------------------------------------

  predicate AllLinesSettled(lines: seq<string>) {
    forall i :: 0 <= i < |lines| ==> LineSettled(lines[i])
  }

  predicate AllOptionsSmooth(lines: seq<string>) {
    forall i :: 0 <= i < |lines| ==> SmoothKernelopt(lines[i])
  }

  /** A refreshed file has a prefix line, and keeps it when it is normalised. */
  lemma RefreshedHasPrefix(lines: seq<string>, base: string)
    ensures AnyPrefix(MapLines(NormalizeLineOf(), NetworkLines(lines, base)))
  {
    WrittenPrefix(base);
    var out := NetworkLines(lines, base);
    hide NormalizeLine, IsPrefix, IsKernelopt, Normalize, ValueOf, LeadingComments;
    var i: nat;
    if AnyPrefix(lines) {
      i :| i < |lines| && IsPrefix(lines[i]);
    } else {
      i := LeadingComments(MapLines(NetworkLineOf(base), lines));
    }
    assert out[i] == "prefix=" + base;
    assert IsPrefix(MapLines(NormalizeLineOf(), out)[i]);
  }

  lemma NetworkWhenAny(lines: seq<string>, base: string)
    requires AnyPrefix(lines)
    ensures NetworkLines(lines, base) == MapLines(NetworkLineOf(base), lines)
  {
  }

  /** The second refresh rewrites line by line and inserts nothing. */
  lemma SecondRefresh(lines: seq<string>, first: string, second: string)
    requires lines != []
    ensures
      var once := NetworkLines(lines, first);
      RefreshLines(once, second) == MapLines(RefreshLineOf(second), once)
  {
    var once := NetworkLines(lines, first);
    RefreshedHasPrefix(lines, first);
    NetworkNotEmpty(lines, first);
    hide NormalizeLine, NetworkLine, AnyPrefix, NetworkLines;
    var norm := MapLines(NormalizeLineOf(), once);
    NetworkWhenAny(norm, second);
    assert FileLines(once) == once;
    forall i | 0 <= i < |once|
      ensures NetworkLineOf(second)(norm[i]) == RefreshLineOf(second)(once[i])
    {
    }
  }

  /** Where line i of the normalised file ends up. */
  function Placed(lines: seq<string>, base: string, i: nat): (j: nat)
    requires i < |lines|
    ensures j < |NetworkLines(lines, base)|
    ensures NetworkLines(lines, base)[j] == NetworkLine(lines[i], base)
  {
    var n := LeadingComments(MapLines(NetworkLineOf(base), lines));
    if AnyPrefix(lines) || i < n then i else i + 1
  }

  /** Without a prefix line the base is not used line by line. */
  lemma SamePlace(lines: seq<string>, first: string, second: string)
    ensures !AnyPrefix(lines) ==>
            MapLines(NetworkLineOf(first), lines) == MapLines(NetworkLineOf(second), lines)
    ensures forall i :: 0 <= i < |lines| ==> Placed(lines, first, i) == Placed(lines, second, i)
  {
    hide IsPrefix, IsKernelopt, Normalize, ValueOf, LeadingComments;
    if !AnyPrefix(lines) {
      var a, b := MapLines(NetworkLineOf(first), lines), MapLines(NetworkLineOf(second), lines);
      forall i | 0 <= i < |lines| ensures a[i] == b[i] {
        assert !IsPrefix(lines[i]);
      }
      assert a == b;
    }
  }

  /** Every line of the written file is a rewritten line or the inserted prefix. */
  lemma FromPlaced(lines: seq<string>, base: string, j: nat)
    requires j < |NetworkLines(lines, base)|
    ensures (exists i :: 0 <= i < |lines| && Placed(lines, base, i) == j) ||
            (!AnyPrefix(lines) && NetworkLines(lines, base)[j] == "prefix=" + base &&
             j == LeadingComments(MapLines(NetworkLineOf(base), lines)))
  {
    hide NetworkLine, IsPrefix;
    var n := LeadingComments(MapLines(NetworkLineOf(base), lines));
    if AnyPrefix(lines) || j < n {
      assert Placed(lines, base, j) == j;
    } else if j > n {
      assert Placed(lines, base, j - 1) == j;
    }
  }

  lemma PrefixAgain(first: string, second: string)
    ensures RefreshLine("prefix=" + first, second) == "prefix=" + second
  {
    hide NormalizeLine, IsPrefix;
    WrittenPrefix(first);
  }

  /** Line lists: one refresh is the same as two, exactly when every line settles. */
  lemma LinesAgain(lines: seq<string>, first: string, second: string)
    requires lines != [] && AllOptionsSmooth(lines)
    ensures RefreshLines(RefreshLines(lines, first), second) == RefreshLines(lines, second) <==>
            AllLinesSettled(lines)
  {
    var norm := MapLines(NormalizeLineOf(), lines);
    var once, target := NetworkLines(norm, first), NetworkLines(norm, second);
    var twice := MapLines(RefreshLineOf(second), once);
    SecondRefresh(norm, first, second);
    SamePlace(norm, first, second);
    NetworkNotEmpty(norm, first);
    NetworkNotEmpty(norm, second);
    hide NetworkLines, NormalizeLine, NetworkLine, LineSettled, SmoothKernelopt, AnyPrefix,
         RefreshLine, Placed;
    if AllLinesSettled(lines) {
      forall j | 0 <= j < |once| ensures twice[j] == target[j] {
        SettledAt(lines, first, second, j);
      }
      assert twice == target;
    }
    if twice == target {
      forall i | 0 <= i < |lines| ensures LineSettled(lines[i]) {
        AgainAt(lines, first, second, i);
      }
    }
  }

  /** One place of the written file when every line settles. */
  lemma SettledAt(lines: seq<string>, first: string, second: string, j: nat)
    requires AllOptionsSmooth(lines) && AllLinesSettled(lines)
    requires j < |NetworkLines(MapLines(NormalizeLineOf(), lines), first)|
    ensures
      var norm := MapLines(NormalizeLineOf(), lines);
      && j < |NetworkLines(norm, second)|
      && RefreshLine(NetworkLines(norm, first)[j], second) == NetworkLines(norm, second)[j]
  {
    var norm := MapLines(NormalizeLineOf(), lines);
    SamePlace(norm, first, second);
    hide NetworkLines, NormalizeLine, NetworkLine, LineSettled, SmoothKernelopt, AnyPrefix,
         RefreshLine, Placed;
    FromPlaced(norm, first, j);
    if i: nat :| i < |norm| && Placed(norm, first, i) == j {
      assert LineSettled(lines[i]);
      AgainAt(lines, first, second, i);
    } else {
      PrefixAgain(first, second);
      InsertedAt(norm, second);
    }
  }

  lemma InsertedAt(lines: seq<string>, base: string)
    requires !AnyPrefix(lines)
    ensures
      var n := LeadingComments(MapLines(NetworkLineOf(base), lines));
      n < |NetworkLines(lines, base)| && NetworkLines(lines, base)[n] == "prefix=" + base
  {
  }

  /** One line of the file, after the second refresh and after the one that counts. */
  lemma AgainAt(lines: seq<string>, first: string, second: string, i: nat)
    requires i < |lines| && AllOptionsSmooth(lines)
    ensures
      var norm := MapLines(NormalizeLineOf(), lines);
      var j := Placed(norm, first, i);
      && j == Placed(norm, second, i)
      && j < |NetworkLines(norm, first)| && j < |NetworkLines(norm, second)|
      && (RefreshLine(NetworkLines(norm, first)[j], second) == NetworkLines(norm, second)[j] <==>
          LineSettled(lines[i]))
  {
    var norm := MapLines(NormalizeLineOf(), lines);
    SamePlace(norm, first, second);
    hide NetworkLines, NormalizeLine, NetworkLine, LineSettled, SmoothKernelopt, AnyPrefix, Placed;
    assert SmoothKernelopt(lines[i]);
    RefreshLineAgain(lines[i], first, second);
  }

  /** No `kernelopt` value of this file has anything to decode. */
  predicate OptionsAreSmooth(text: string) { AllOptionsSmooth(SplitLines(text)) }

  /** Every path and every `kernelopt` value of this file is in final form after one pass. */
  predicate FileSettles(text: string) { AllLinesSettled(SplitLines(text)) }

  /** Refreshing for one server and then another is, byte for byte, refreshing for the
      second alone, exactly when every line of the file settles in one pass. */
  lemma RefreshAbsorption(text: string, first: string, second: string)
    requires OneLine(first) && OneLine(second) && OptionsAreSmooth(text)
    ensures Refreshed(Refreshed(text, first), second) == Refreshed(text, second) <==>
            FileSettles(text)
  {
    var lines := SplitLines(text);
    hide All, SplitLines, NoBreaks, RefreshLines, LineSettled, SmoothKernelopt, Unlines, Refreshed;
    RefreshedLines(text, first);
    RefreshedLines(text, second);
    RefreshedLines(Refreshed(text, first), second);
    EmptyFileSettles();
    SameRefresh(lines, first);
    SameRefresh(lines, second);
    LinesAgain(FileLines(lines), first, second);
  }

  lemma SameRefresh(lines: seq<string>, base: string)
    ensures RefreshLines(FileLines(lines), base) == RefreshLines(lines, base)
  {
    assert FileLines(FileLines(lines)) == FileLines(lines);
  }

  lemma EmptyFileSettles()
    ensures LineSettled("") && SmoothKernelopt("")
  {
    EmptyStrip();
    NoKeyInEmpty();
  }

  // ---- A file refreshed twice -------------------------------------------

  const HIDDEN := "/" + SHOWN

  lemma HiddenChars()
    ensures HIDDEN == "/" + ("http" + ("://" + ("h" + ("/" + ("p" + "?")))))
    ensures All(IsPlain, HIDDEN) && IsToken(HIDDEN)
  {
  }

  lemma ShortWords()
    ensures !MentionsCdrom("http") && !MentionsCdrom("h") && !MentionsCdrom("p")
    ensures !MentionsCdrom("/") && !MentionsCdrom("://") && !MentionsCdrom("?")
  {
    WordAlone("http");
    WordAlone("h");
    WordAlone("p");
    assert |"cdromboot"| == 9;
    hide MentionsCdrom;
    MentionsNonWords("/");
    MentionsNonWords("://");
    MentionsNonWords("?");
  }

  lemma HiddenMentions()
    ensures !MentionsCdrom(HIDDEN)
  {
    HiddenChars();
    ShortWords();
    hide MentionsCdrom, All, HIDDEN, IsToken;
    MentionsConcat("p", "?");
    MentionsConcat("/", "p" + "?");
    MentionsConcat("h", "/" + ("p" + "?"));
    MentionsConcat("://", "h" + ("/" + ("p" + "?")));
    MentionsConcat("http", "://" + ("h" + ("/" + ("p" + "?"))));
    MentionsConcat("/", "http" + ("://" + ("h" + ("/" + ("p" + "?")))));
  }

  /** A kernelopt value that does not settle in one pass. */
  lemma HiddenUnsettled()
    ensures SmoothOption(HIDDEN) && !SettledOption(HIDDEN)
  {
    hide HIDDEN, SHOWN, IsPlain, IsToken, MentionsCdrom, WithoutCdrom, Tokens, IsSettledToken;
    HiddenTwice();
    HiddenMentions();
    WithoutNone(HIDDEN);
    OneToken(HIDDEN);
  }

  lemma HiddenTwice()
    ensures All(IsPlain, HIDDEN) && IsToken(HIDDEN) && !IsSettledToken(HIDDEN)
  {
    HiddenChars();
    assert HIDDEN == "/" + SHOWN;
    hide HIDDEN, SHOWN, All, LowerToken, HidesUrl, ValuePart, Complete, IsToken;
    HiddenUrlDiffers();
    LowerTokenTwice(HIDDEN);
  }

  lemma OneToken(t: string)
    requires IsToken(t) && All(IsPlain, t)
    ensures AreSmooth(Tokens(t))
    ensures AreSettled(Tokens(t)) <==> IsSettledToken(t)
  {
    hide IsToken, All, IsSettledToken;
    TokensOfToken(t);
    assert Tokens(t)[0] == t;
  }

  /** Refreshing twice can differ from refreshing once: a file of one kernelopt line. */
  lemma HiddenUrlFile(first: string, second: string)
    requires OneLine(first) && OneLine(second)
    ensures
      var text := Unlines(["kernelopt=" + HIDDEN]);
      Refreshed(Refreshed(text, first), second) != Refreshed(text, second)
  {
    var line := "kernelopt=" + HIDDEN;
    HiddenLine();
    HiddenUnsettled();
    hide HIDDEN, SHOWN, Refreshed, Unlines, All, IsKernelopt, ValueOf, SmoothOption, SettledOption,
         SettledPaths;
    SplitUnlines([line]);
    RefreshAbsorption(Unlines([line]), first, second);
    assert SplitLines(Unlines([line]))[0] == line;
  }

  lemma HiddenLine()
    ensures OneLine("kernelopt=" + HIDDEN) && IsKernelopt("kernelopt=" + HIDDEN)
    ensures ValueOf("kernelopt=" + HIDDEN) == HIDDEN
  {
    HiddenChars();
    hide HIDDEN, SHOWN, All, IsKernelopt, ValueOf, IsToken, NormalizeLine;
    PlainStrip(HIDDEN);
    WrittenOption(HIDDEN);
    KsPrefixOneLine();
    TokenHasNoBreak(HIDDEN);
    AllConcat(NotBreak, "kernelopt=", HIDDEN);
  }
}
