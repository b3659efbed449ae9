/** Kickstart activation and the menu refresh of a whole file, in either order. */
module CommuteFile {
  import opened Text
  import opened Lines
  import opened ConfigLine
  import opened Kernelopt
  import opened Kickstart
  import opened KickstartLaws
  import opened CommuteOption
  import opened Refresh
  import opened RefreshLaws
  import opened RefreshText
  import opened CommuteLine

  predicate CommentLine(line: string) { IsComment(Strip(line)) }

  // ---- Leading comments -------------------------------------------------

  predicate AllComments(lines: seq<string>) {
    forall i :: 0 <= i < |lines| ==> CommentLine(lines[i])
  }

  lemma {:induction false} LeadingSplit(front: seq<string>, rest: seq<string>)
    requires AllComments(front) && (rest != [] ==> !CommentLine(rest[0]))
    ensures LeadingComments(front + rest) == |front|
  {
    if front == [] {
      assert front + rest == rest;
    } else {
      assert CommentLine(front[0]) && AllComments(front[1..]);
      hide IsComment, Strip;
      assert (front + rest)[1..] == front[1..] + rest;
      LeadingSplit(front[1..], rest);
    }
  }

  lemma {:induction false} LeadingParts(lines: seq<string>)
    ensures AllComments(lines[..LeadingComments(lines)])
    ensures LeadingComments(lines) < |lines| ==> !CommentLine(lines[LeadingComments(lines)])
  {
    hide IsComment, Strip;
    if lines != [] && CommentLine(lines[0]) {
      LeadingParts(lines[1..]);
      var n := LeadingComments(lines[1..]);
      assert lines[..n + 1] == [lines[0]] + lines[1..][..n];
    }
  }

  lemma {:induction false} LeadingBound(lines: seq<string>, i: nat)
    requires i < |lines| && !CommentLine(lines[i])
    ensures LeadingComments(lines) <= i
  {
    hide IsComment, Strip;
    if i > 0 && CommentLine(lines[0]) { LeadingBound(lines[1..], i - 1); }
  }

  lemma {:induction false} SameLeading(a: seq<string>, b: seq<string>)
    requires |a| == |b|
    requires forall i :: 0 <= i < |a| ==> (CommentLine(a[i]) <==> CommentLine(b[i]))
    ensures LeadingComments(a) == LeadingComments(b)
  {
    hide IsComment, Strip;
    if a != [] {
      assert CommentLine(a[0]) <==> CommentLine(b[0]);
      forall i | 0 <= i < |a[1..]| ensures CommentLine(a[1..][i]) <==> CommentLine(b[1..][i]) {
        assert CommentLine(a[i + 1]) <==> CommentLine(b[i + 1]);
      }
      SameLeading(a[1..], b[1..]);
    }
  }

  lemma LeadingAppend(lines: seq<string>, last: string)
    requires !CommentLine(last)
    ensures LeadingComments(lines + [last]) == LeadingComments(lines)
  {
    hide IsComment, Strip, CommentLine;
    var n := LeadingComments(lines);
    LeadingParts(lines);
    assert lines + [last] == lines[..n] + (lines[n..] + [last]);
    assert (lines[n..] + [last])[0] == if n < |lines| then lines[n] else last;
    LeadingSplit(lines[..n], lines[n..] + [last]);
  }

  lemma KeyNoComment(x: string)
    ensures !CommentLine("kernelopt=" + x)
  {
    Names();
    hide IsName, Strip, Matches, MatchesIndented;
    assert KERNELOPT + "=" == "kernelopt=";
    WrittenKernelopt(x);
    StripKey(KERNELOPT, "kernelopt=" + x);
    MatchedHead(KERNELOPT, Strip("kernelopt=" + x));
  }

  // ---- Inserting the prefix ---------------------------------------------

  /** The file with a prefix inserted when it has none of its own. */
  function Arrange(lines: seq<string>, insert: bool, base: string): seq<string> {
    if insert then InsertPrefix(lines, base) else lines
  }

  lemma InsertAppend(lines: seq<string>, last: string, base: string)
    requires !CommentLine(last)
    ensures InsertPrefix(lines + [last], base) == InsertPrefix(lines, base) + [last]
  {
    hide CommentLine;
    LeadingAppend(lines, last);
    var n := LeadingComments(lines);
    assert (lines + [last])[..n] == lines[..n] && (lines + [last])[n..] == lines[n..] + [last];
  }

  lemma {:induction false} TrimEndConcat(front: seq<string>, rest: seq<string>)
    requires TrimEnd(rest) != []
    ensures TrimEnd(front + rest) == front + TrimEnd(rest)
    decreases |rest|
  {
    hide IsBlank, RightTrimmed;
    var init, last := rest[..|rest| - 1], rest[|rest| - 1];
    assert front + rest == (front + init) + [last];
    TrimEndSnoc(front + init, last);
    if IsBlank(last) {
      TrimEndConcat(front, init);
    }
  }

  /** A line that is neither blank nor a comment stops both scans. */
  predicate Anchored(lines: seq<string>, i: nat) {
    i < |lines| && !IsBlank(lines[i]) && !CommentLine(lines[i])
  }

  lemma TrimmedComment(line: string)
    ensures CommentLine(RightTrimmed(line)) <==> CommentLine(line)
  {
    StripRightTrimmed(line);
  }

  /** Inserting the prefix and trimming the end of the file can be exchanged. */
  lemma InsertTrim(lines: seq<string>, i: nat, insert: bool, base: string)
    requires Anchored(lines, i)
    ensures TrimEnd(Arrange(lines, insert, base)) == Arrange(TrimEnd(lines), insert, base)
  {
    if insert {
      hide CommentLine, IsBlank, RightTrimmed, TrimEnd;
      var n := LeadingComments(lines);
      LeadingParts(lines);
      LeadingBound(lines, i);
      var front, rest := lines[..n], lines[n..];
      assert rest[i - n] == lines[i] && lines == front + rest;
      TrimEndAt(rest, i - n);
      TrimEndConcat(front, rest);
      TrimEndConcat(front + ["prefix=" + base], rest);
      var z := TrimEnd(rest);
      TrimEndAt(rest, 0);
      TrimmedComment(rest[0]);
      LeadingSplit(front, z);
      assert (front + z)[..n] == front && (front + z)[n..] == z;
    }
  }

  // ---- The two orders, as lists of lines --------------------------------

  /** Both rewrites on every line, the refresh first, and the appended line. */
  function RefreshThenKs(lines: seq<string>, base: string, ks: string): seq<string> {
    MapLines(KsLineOf(ks), MapLines(RefreshLineOf(base), lines))
    + if AnyKernelopt(lines) then [] else ["kernelopt=" + Merge("", ks)]
  }

  function KsThenRefresh(lines: seq<string>, base: string, ks: string): seq<string> {
    MapLines(RefreshLineOf(base), KsLines(lines, ks))
  }

  predicate SteadyLines(lines: seq<string>) {
    forall i :: 0 <= i < |lines| ==> SteadyLine(lines[i])
  }

  lemma SameAnyPrefix(lines: seq<string>)
    ensures AnyPrefix(MapLines(NormalizeLineOf(), lines)) <==> AnyPrefix(lines)
  {
    hide NormalizeLine, IsPrefix, RefreshLine;
    forall i | 0 <= i < |lines|
      ensures IsPrefix(NormalizeLine(lines[i])) <==> IsPrefix(lines[i])
    {
      RefreshKeepsKey(lines[i], "");
    }
    assert forall i :: 0 <= i < |lines| ==>
      MapLines(NormalizeLineOf(), lines)[i] == NormalizeLine(lines[i]);
  }

  lemma TwoPasses(lines: seq<string>, base: string)
    ensures MapLines(NetworkLineOf(base), MapLines(NormalizeLineOf(), lines)) ==
            MapLines(RefreshLineOf(base), lines)
  {
    hide NormalizeLine, NetworkLine;
  }

  /** A refresh of a non-empty file is one pass over its lines and one insertion. */
  lemma RefreshArranged(lines: seq<string>, base: string)
    requires lines != []
    ensures RefreshLines(lines, base) ==
            Arrange(MapLines(RefreshLineOf(base), lines), !AnyPrefix(lines), base)
  {
    hide NormalizeLine, NetworkLine, IsPrefix, RefreshLine, LeadingComments;
    SameAnyPrefix(lines);
    TwoPasses(lines, base);
    assert FileLines(lines) == lines;
  }

  lemma KsKeepsComment(line: string, ks: string)
    ensures CommentLine(KsLine(line, ks)) <==> CommentLine(line)
  {
    hide IsKernelopt, Merge, ValueOf, CommentLine;
    if IsKernelopt(line) {
      KeyNoComment(Merge(ValueOf(line), ks));
      KerneloptNoComment(line);
    }
  }

  lemma KerneloptNoComment(line: string)
    requires IsKernelopt(line)
    ensures !CommentLine(line) && !IsBlank(line)
  {
    Names();
    hide IsName, Strip, Matches, MatchesIndented, RightTrimmed;
    StripKey(KERNELOPT, line);
    MatchedHead(KERNELOPT, Strip(line));
    KeyNotBlank(KERNELOPT, line);
  }

  lemma PrefixNoKs(base: string, ks: string)
    ensures KsLine("prefix=" + base, ks) == "prefix=" + base
    ensures !IsKernelopt("prefix=" + base)
  {
    hide IsKernelopt, IsPrefix, Merge, ValueOf, NormalizeLine;
    WrittenPrefix(base);
    OneKey("prefix=" + base);
  }

  lemma AnyKerneloptConcat(a: seq<string>, b: seq<string>)
    ensures AnyKernelopt(a + b) <==> AnyKernelopt(a) || AnyKernelopt(b)
  {
    hide IsKernelopt;
    var c := a + b;
    assert forall i :: 0 <= i < |a| ==> c[i] == a[i];
    assert forall i :: 0 <= i < |b| ==> c[|a| + i] == b[i];
  }

  lemma KsKeepsLeading(lines: seq<string>, ks: string)
    ensures LeadingComments(MapLines(KsLineOf(ks), lines)) == LeadingComments(lines)
  {
    hide KsLine, CommentLine, LeadingComments;
    forall i | 0 <= i < |lines|
      ensures CommentLine(KsLine(lines[i], ks)) <==> CommentLine(lines[i])
    {
      KsKeepsComment(lines[i], ks);
    }
    SameLeading(MapLines(KsLineOf(ks), lines), lines);
  }

  /** Activation passes over the inserted prefix. */
  lemma KsOfArranged(lines: seq<string>, insert: bool, base: string, ks: string)
    ensures MapLines(KsLineOf(ks), Arrange(lines, insert, base)) ==
            Arrange(MapLines(KsLineOf(ks), lines), insert, base)
    ensures AnyKernelopt(Arrange(lines, insert, base)) <==> AnyKernelopt(lines)
  {
    if insert {
      var f, n, p := KsLineOf(ks), LeadingComments(lines), "prefix=" + base;
      PrefixNoKs(base, ks);
      KsKeepsLeading(lines, ks);
      hide KsLine, IsKernelopt, LeadingComments, AnyKernelopt, MapLines;
      MapInsert(f, lines, n, p);
      KerneloptInserted(lines[..n], p, lines[n..]);
      CutAgain(lines, n);
    }
  }

  lemma CutAgain(lines: seq<string>, n: nat)
    requires n <= |lines|
    ensures lines[..n] + lines[n..] == lines
  {
  }

  lemma MapInsert(f: string -> string, lines: seq<string>, n: nat, p: string)
    requires n <= |lines|
    ensures MapLines(f, lines[..n] + [p] + lines[n..]) ==
            MapLines(f, lines)[..n] + [f(p)] + MapLines(f, lines)[n..]
  {
  }

  lemma KerneloptInserted(a: seq<string>, p: string, b: seq<string>)
    requires !IsKernelopt(p)
    ensures AnyKernelopt(a + [p] + b) <==> AnyKernelopt(a + b)
  {
    hide IsKernelopt;
    AnyKerneloptConcat(a + [p], b);
    AnyKerneloptConcat(a, [p]);
    AnyKerneloptConcat(a, b);
    assert forall i :: 0 <= i < |[p]| ==> [p][i] == p;
  }

  /** The refresh keeps the presence of a kernelopt line. */
  lemma RefreshKeepsAny(lines: seq<string>, base: string)
    ensures AnyKernelopt(MapLines(RefreshLineOf(base), lines)) <==> AnyKernelopt(lines)
  {
    hide IsKernelopt, RefreshLine;
    var out := MapLines(RefreshLineOf(base), lines);
    forall i | 0 <= i < |lines| ensures IsKernelopt(out[i]) <==> IsKernelopt(lines[i]) {
      RefreshKeepsKey(lines[i], base);
    }
  }

  /** Refresh first: the lines activation then writes, before trimming. */
  lemma RefreshFirst(lines: seq<string>, base: string, ks: string)
    requires lines != []
    ensures KsLines(RefreshLines(lines, base), ks) ==
            Arrange(RefreshThenKs(lines, base, ks), !AnyPrefix(lines), base)
  {
    var low, insert := MapLines(RefreshLineOf(base), lines), !AnyPrefix(lines);
    hide KsLineOf, RefreshLineOf, AnyKernelopt, AnyPrefix, InsertPrefix, RefreshLines, Merge;
    RefreshArranged(lines, base);
    KsOfArranged(low, insert, base, ks);
    RefreshKeepsAny(lines, base);
    var once := MapLines(KsLineOf(ks), low);
    if AnyKernelopt(lines) {
      assert once + [] == once;
      assert Arrange(once, insert, base) + [] == Arrange(once, insert, base);
    } else {
      KeyNoComment(Merge("", ks));
      InsertAppend(once, "kernelopt=" + Merge("", ks), base);
    }
  }

  /** Trimming the end of a file keeps the presence of a prefix line. */
  lemma TrimKeepsPrefix(lines: seq<string>)
    ensures AnyPrefix(TrimEnd(lines)) <==> AnyPrefix(lines)
  {
    hide IsPrefix, RightTrimmed, TrimEnd;
    if AnyPrefix(lines) {
      var i :| 0 <= i < |lines| && IsPrefix(lines[i]);
      PrefixNotBlank(lines[i]);
      TrimEndAt(lines, i);
      PrefixRightTrimmed(lines[i]);
      assert IsPrefix(TrimEnd(lines)[i]);
    }
    if AnyPrefix(TrimEnd(lines)) {
      var i :| 0 <= i < |TrimEnd(lines)| && IsPrefix(TrimEnd(lines)[i]);
      TrimEndAt(lines, i);
      PrefixRightTrimmed(lines[i]);
      assert IsPrefix(lines[i]);
    }
  }

  lemma PrefixNotBlank(line: string)
    requires IsPrefix(line)
    ensures !IsBlank(line)
  {
    hide MatchesIndented, RightTrimmed;
    if MatchesIndented(PREFIX, line) { KeyLineNormal(PREFIX, line); }
    if MatchesIndented(PREFIX_HTTP, line) { KeyLineNormal(PREFIX_HTTP, line); }
  }

  /** Activation keeps the presence of a prefix line. */
  lemma KsKeepsPrefix(lines: seq<string>, ks: string)
    ensures AnyPrefix(KsLines(lines, ks)) <==> AnyPrefix(lines)
  {
    var out := KsLines(lines, ks);
    hide IsKernelopt, IsPrefix, Merge, ValueOf, NormalizeLine;
    forall i | 0 <= i < |lines| ensures IsPrefix(out[i]) <==> IsPrefix(lines[i]) {
      OneKey(lines[i]);
      WrittenOption(Merge(ValueOf(lines[i]), ks));
    }
    WrittenOption(Merge("", ks));
  }

  lemma SteadyRefreshEnds(lines: seq<string>, base: string, ks: string)
    requires SteadyLines(lines) && Trimmed(base)
    ensures forall i :: 0 <= i < |KsLines(lines, ks)| ==>
              KeepsEnd(RefreshLineOf(base), KsLines(lines, ks)[i])
  {
    hide KeepsEnd, SettledPaths, Bared, IsBlank, IsKernelopt, Merge, ValueOf, Trimmed, SteadyOption;
    var out := KsLines(lines, ks);
    forall i | 0 <= i < |out| ensures KeepsEnd(RefreshLineOf(base), out[i]) {
      if i < |lines| {
        assert SteadyLine(lines[i]);
        if IsKernelopt(lines[i]) {
          WrittenSteady(Merge(ValueOf(lines[i]), ks));
        }
      } else {
        WrittenSteady(Merge("", ks));
      }
      RefreshKeepsEnd(out[i], base);
    }
  }

  lemma WrittenSteady(x: string)
    ensures SettledPaths("kernelopt=" + x) && Bared("kernelopt=" + x) != ""
  {
    hide SettledPaths, Bared, ValueOf, NormalizeLine, MatchesIndented;
    WrittenOption(x);
    NormalizedKey("kernelopt=" + x);
    KeyLineNormal(KERNELOPT, "kernelopt=" + x);
  }

  /** Activation first: the lines the refresh then writes. */
  lemma KsFirst(lines: seq<string>, base: string, ks: string)
    requires SteadyLines(lines) && Trimmed(base)
    ensures RefreshLines(TrimEnd(KsLines(lines, ks)), base) ==
            TrimEnd(Arrange(KsThenRefresh(lines, base, ks), !AnyPrefix(lines), base))
  {
    var out := KsLines(lines, ks);
    var i, existing := KerneloptLineOf(lines, ks);
    hide KsLines, SteadyLines, Trimmed, KeepsEnd, RefreshLines, AnyPrefix, RefreshLineOf, Arrange,
         Merge, TrimEnd;
    SteadyRefreshEnds(lines, base, ks);
    MapTrimEnd(RefreshLineOf(base), out);
    TrimmedHasKernelopt(lines, ks);
    RefreshArranged(TrimEnd(out), base);
    TrimKeepsPrefix(out);
    KsKeepsPrefix(lines, ks);
    RefreshAnchors(Merge(existing, ks), base);
    InsertTrim(KsThenRefresh(lines, base, ks), i, !AnyPrefix(lines), base);
  }

  /** The rewritten kernelopt line anchors both scans. */
  lemma RefreshAnchors(x: string, base: string)
    ensures !IsBlank(RefreshLineOf(base)("kernelopt=" + x))
    ensures !CommentLine(RefreshLineOf(base)("kernelopt=" + x))
  {
    hide IsKernelopt, ValueOf, NormalizeLine, Normalize, IsPrefix, CommentLine, IsBlank;
    WrittenOption(x);
    WrittenOption(Normalize(ValueOf("kernelopt=" + x)));
    KerneloptNoComment("kernelopt=" + Normalize(ValueOf("kernelopt=" + x)));
  }

  // ---- The two orders, as files -----------------------------------------

  /** The lists agree when the URL is lower-cased already. */
  lemma SameLines(lines: seq<string>, base: string, ks: string)
    requires SteadyLines(lines) && SteadyUrl(ks) && LoweredUrl(ks)
    ensures RefreshThenKs(lines, base, ks) == KsThenRefresh(lines, base, ks)
  {
    hide KsLine, RefreshLine, SteadyLine, SteadyUrl, LoweredUrl, IsKernelopt, Merge;
    AppendedCommutes(base, ks);
    forall i | 0 <= i < |lines|
      ensures KsLine(RefreshLine(lines[i], base), ks) == RefreshLine(KsLine(lines[i], ks), base)
    {
      assert SteadyLine(lines[i]);
      LineCommutes(lines[i], base, ks);
    }
  }

  /** A kernelopt line on which the two orders differ when it is not. */
  lemma LinesDiffer(lines: seq<string>, base: string, ks: string) returns (i: nat, x: string, y: string)
    requires SteadyLines(lines) && SteadyUrl(ks) && !LoweredUrl(ks)
    ensures i < |RefreshThenKs(lines, base, ks)| == |KsThenRefresh(lines, base, ks)|
    ensures RefreshThenKs(lines, base, ks)[i] == "kernelopt=" + x && Strip(x) == x
    ensures KsThenRefresh(lines, base, ks)[i] == "kernelopt=" + y && Strip(y) == y
    ensures x != y
  {
    hide NormalizeLine, SteadyLine, SteadyUrl, LoweredUrl, IsKernelopt, Merge, IsPrefix, ValueOf,
         Normalize, Strip;
    if AnyKernelopt(lines) {
      i :| i < |lines| && IsKernelopt(lines[i]);
      x, y := DifferAt(lines[i], base, ks);
    } else {
      i, x := |lines|, Merge("", ks);
      AppendedCommutes(base, ks);
      MergeIsTrimmed("", ks);
      WrittenOption(x);
      y := Normalize(ValueOf("kernelopt=" + x));
      NormalizeIsTrimmed(ValueOf("kernelopt=" + x));
    }
  }

  lemma DifferAt(line: string, base: string, ks: string) returns (x: string, y: string)
    requires SteadyLine(line) && IsKernelopt(line) && SteadyUrl(ks) && !LoweredUrl(ks)
    ensures KsLine(RefreshLine(line, base), ks) == "kernelopt=" + x && Strip(x) == x
    ensures RefreshLine(KsLine(line, ks), base) == "kernelopt=" + y && Strip(y) == y
    ensures x != y
  {
    hide NormalizeLine, SteadyLine, SteadyUrl, LoweredUrl, IsKernelopt, Merge, IsPrefix, ValueOf,
         Normalize, Strip;
    LineCommutes(line, base, ks);
    RefreshKeepsKey(line, base);
    var r := RefreshLine(line, base);
    x := Merge(ValueOf(r), ks);
    MergeIsTrimmed(ValueOf(r), ks);
    var m := Merge(ValueOf(line), ks);
    WrittenOption(m);
    y := Normalize(ValueOf("kernelopt=" + m));
    NormalizeIsTrimmed(ValueOf("kernelopt=" + m));
  }

  lemma ArrangedParts(lines: seq<string>, base: string)
    ensures
      var n, all := LeadingComments(lines), InsertPrefix(lines, base);
      && |all| == |lines| + 1
      && forall j :: 0 <= j < |all| ==>
           all[j] == if j < n then lines[j] else if j == n then "prefix=" + base else lines[j - 1]
  {
    hide LeadingComments;
  }

  /** Where an anchored line stands in the trimmed file. */
  lemma KernelOptPlace(lines: seq<string>, i: nat, x: string, insert: bool, base: string)
    requires i < |lines| && lines[i] == "kernelopt=" + x && Strip(x) == x
    ensures
      var out, j := TrimEnd(Arrange(lines, insert, base)), if insert then i + 1 else i;
      j < |out| && out[j] == "kernelopt=" + x
  {
    hide CommentLine, RightTrimmed, TrimEnd, Strip;
    KeyNoComment(x);
    StripIsTrimmed(x);
    HeadedTrim("kernelopt=", x);
    LeadingBound(lines, i);
    ArrangedParts(lines, base);
    TrimEndAt(Arrange(lines, insert, base), if insert then i + 1 else i);
  }

  lemma SteadyUrlOneLine(ks: string)
    requires SteadyUrl(ks)
    ensures OneLine(ks)
  {
    SteadyNoSpace(ks);
    assert forall i :: 0 <= i < |ks| ==> NotSpace(ks[i]);
  }

  /** The file written by refreshing and then activating. */
  lemma RefreshFirstText(text: string, base: string, ks: string)
    requires text != "" && OneLine(base) && OneLine(ks)
    ensures
      var out := TrimEnd(Arrange(RefreshThenKs(SplitLines(text), base, ks),
                                 !AnyPrefix(SplitLines(text)), base));
      WithKs(Refreshed(text, base), ks) == Unlines(out)
      && SplitLines(WithKs(Refreshed(text, base), ks)) == out
  {
    var lines := SplitLines(text);
    hide All, SplitLines, RefreshLines, Refreshed, KsLines, RightTrimmed, Arrange, RefreshThenKs,
         AnyPrefix, NoBreaks;
    RefreshedLines(text, base);
    RefreshFirst(lines, base, ks);
    TrimJoin(KsLines(RefreshLines(lines, base), ks));
    ReadBack(Refreshed(text, base), ks);
  }

  /** The file written by activating and then refreshing. */
  lemma KsFirstText(text: string, base: string, ks: string)
    requires SteadyLines(SplitLines(text)) && OneLine(base) && Trimmed(base) && OneLine(ks)
    ensures
      var out := TrimEnd(Arrange(KsThenRefresh(SplitLines(text), base, ks),
                                 !AnyPrefix(SplitLines(text)), base));
      Refreshed(WithKs(text, ks), base) == Unlines(out)
      && SplitLines(Refreshed(WithKs(text, ks), base)) == out
  {
    var lines := SplitLines(text);
    hide All, SplitLines, RefreshLines, Refreshed, KsLines, RightTrimmed, Arrange, KsThenRefresh,
         AnyPrefix, NoBreaks, SteadyLines, WithKs, Trimmed;
    ReadBack(text, ks);
    KsFirst(lines, base, ks);
    RefreshedLines(WithKs(text, ks), base);
  }

  /** A file both rewrites treat alike. */
  predicate SteadyFile(text: string) { text != "" && SteadyLines(SplitLines(text)) }

  /** A prefix as the source builds it: one line, no outer space. */
  predicate SteadyBase(base: string) { OneLine(base) && Trimmed(base) }

  /** Activating a kickstart and refreshing the menus commute byte for byte, exactly when
      the URL is one that refreshing leaves as it is. */
  lemma ActivationCommutes(text: string, base: string, ks: string)
    requires SteadyFile(text) && SteadyBase(base) && SteadyUrl(ks)
    ensures WithKs(Refreshed(text, base), ks) == Refreshed(WithKs(text, ks), base) <==>
            LoweredUrl(ks)
  {
    var lines, insert := SplitLines(text), !AnyPrefix(SplitLines(text));
    SteadyUrlOneLine(ks);
    hide All, SplitLines, Refreshed, WithKs, RefreshThenKs, KsThenRefresh, Arrange, AnyPrefix,
         SteadyLines, SteadyUrl, LoweredUrl, Trimmed, Unlines, TrimEnd, NoBreaks, Strip;
    RefreshFirstText(text, base, ks);
    KsFirstText(text, base, ks);
    if LoweredUrl(ks) {
      SameLines(lines, base, ks);
    } else {
      var i, x, y := LinesDiffer(lines, base, ks);
      KernelOptPlace(RefreshThenKs(lines, base, ks), i, x, insert, base);
      KernelOptPlace(KsThenRefresh(lines, base, ks), i, y, insert, base);
      SameText("kernelopt=", x, y);
    }
  }

  /** The lists of lines agree for every URL when the refreshed file is given the URL in
      lower case. */
  lemma LinesRelate(lines: seq<string>, base: string, ks: string)
    requires SteadyLines(lines) && SteadyUrl(ks) && ProperUrl(ks)
    ensures RefreshThenKs(lines, base, LoweredKs(ks)) == KsThenRefresh(lines, base, ks)
  {
    hide KsLine, RefreshLine, SteadyLine, SteadyUrl, ProperUrl, LoweredKs, IsKernelopt, Merge;
    AppendedRelates(base, ks);
    forall i | 0 <= i < |lines|
      ensures KsLine(RefreshLine(lines[i], base), LoweredKs(ks)) ==
              RefreshLine(KsLine(lines[i], ks), base)
    {
      assert SteadyLine(lines[i]);
      LineRelates(lines[i], base, ks);
    }
  }

  /** Refreshing an activated file is, byte for byte, activating the refreshed file with the
      URL in lower case. */
  lemma ActivationRelates(text: string, base: string, ks: string)
    requires SteadyFile(text) && SteadyBase(base) && SteadyUrl(ks) && ProperUrl(ks)
    ensures Refreshed(WithKs(text, ks), base) == WithKs(Refreshed(text, base), LoweredKs(ks))
  {
    LoweredKsKeeps(ks);
    hide All, SplitLines, Refreshed, WithKs, RefreshThenKs, KsThenRefresh, Arrange, AnyPrefix,
         SteadyLines, SteadyUrl, ProperUrl, LoweredKs, Trimmed, Unlines, TrimEnd, NoBreaks;
    SteadyUrlOneLine(ks);
    SteadyUrlOneLine(LoweredKs(ks));
    RefreshFirstText(text, base, LoweredKs(ks));
    KsFirstText(text, base, ks);
    LinesRelate(SplitLines(text), base, ks);
  }

  // ---- The empty file ---------------------------------------------------

  /** Refreshing the empty file gives a prefix and an empty line. */
  lemma EmptyRefreshed(base: string)
    ensures RefreshLines([], base) == ["prefix=" + base, ""]
  {
    EmptyLine();
    NoKeyInEmpty();
    hide IsPrefix, NormalizeLine, MatchesIndented;
    assert MapLines(NormalizeLineOf(), [""]) == [""];
    assert MapLines(NetworkLineOf(base), [""]) == [""];
    assert [""][0] == "";
    EmptyNoComment();
    assert [""][..0] + ["prefix=" + base] + [""][0..] == ["prefix=" + base, ""];
  }

  lemma EmptyNoComment()
    ensures !IsComment(Strip(""))
  {
  }

  /** Neither order of the two rewrites of an empty file gives what the other gives: refreshing
      first leaves an empty line between the prefix and the kernelopt line. */
  lemma EmptyFileDiffers(base: string, ks: string)
    requires SteadyBase(base) && SteadyUrl(ks)
    ensures WithKs(Refreshed("", base), ks) != Refreshed(WithKs("", ks), base)
  {
    SteadyUrlOneLine(ks);
    assert SplitLines("") == [];
    hide All, SplitLines, Refreshed, WithKs, SteadyUrl, Trimmed, TrimEnd, RefreshLines, KsLines;
    RefreshedLines("", base);
    EmptyRefreshed(base);
    ReadBack(Refreshed("", base), ks);
    ThreeLines(base, ks);
    ReadBack("", ks);
    OneLineOnly(ks);
    RefreshedLines(WithKs("", ks), base);
    AtMostOneMore(SplitLines(WithKs("", ks)), base);
  }

  lemma KerneloptNotBlank(x: string)
    ensures !IsBlank("kernelopt=" + x)
  {
    KerneloptName();
    WrittenKernelopt(x);
    assert MatchesIndented(KERNELOPT, "kernelopt=" + x);
    hide MatchesIndented, IsBlank, IsName, ValueOf, Strip;
    KeyNotBlank(KERNELOPT, "kernelopt=" + x);
  }

  lemma NoneOfTwo(base: string)
    ensures !AnyKernelopt(["prefix=" + base, ""])
  {
    NoKeyInEmpty();
    WrittenPrefix(base);
    OneKey("prefix=" + base);
    hide IsKernelopt, IsPrefix, NormalizeLine;
  }

  lemma ThreeLines(base: string, ks: string)
    ensures |TrimEnd(KsLines(["prefix=" + base, ""], ks))| == 3
  {
    hide Merge, IsBlank, RightTrimmed, KsLine, AnyKernelopt, TrimEnd;
    NoneOfTwo(base);
    var lines, last := ["prefix=" + base, ""], "kernelopt=" + Merge("", ks);
    KerneloptNotBlank(Merge("", ks));
    TrimEndSnoc(MapLines(KsLineOf(ks), lines), last);
  }

  lemma OneLineOnly(ks: string)
    ensures |TrimEnd(KsLines([], ks))| <= 1
  {
    hide TrimEnd, Merge;
  }

  lemma AtMostOneMore(lines: seq<string>, base: string)
    ensures |RefreshLines(lines, base)| <= |FileLines(lines)| + 1
  {
    hide NormalizeLine, NetworkLine, IsPrefix;
  }
}
