/** Byte order marks that do no harm: in front of keys that name neither the kernel, nor a
    module, nor the prefix, nor the kernel options. */
module PlainMarks {
  import opened Text
  import opened Lines
  import opened ConfigLine
  import opened KickstartLaws
  import opened Refresh
  import opened RefreshText
  import opened BootCfg
  import opened ReadBack
  import opened BootCfgLaws
  import opened MarkLaws

  /** The line as the rewriter sees it, if it starts with a mark. */
  function Unmarked(line: string): string { if NoBom(line) then line else Bared(line) }

  function UnmarkedOf(): string -> string { line => Unmarked(line) }

  function Clean(lines: seq<string>): seq<string> { MapLines(UnmarkedOf(), lines) }

  /** A mark, if there is one, hides no key that the source treats specially. */
  predicate Harmless(line: string) {
    NoBom(line) ||
    (LeftTrimmed(Bared(line)) &&
     (Read(Bared(line)).Some? ==> KindOf(Read(Bared(line)).value.key) == PlainKey))
  }

  predicate AreHarmless(lines: seq<string>) { forall i :: 0 <= i < |lines| ==> Harmless(lines[i]) }

  // ---- One line ---------------------------------------------------------

  lemma UnmarkedIs(line: string)
    requires Harmless(line)
    ensures NoBom(Unmarked(line)) && Bared(Unmarked(line)) == Bared(line)
  {
    hide Read, Bared, LeftTrimmed, NoBom, Strip;
    if !NoBom(line) {
      BaredTrimmed(line);
      BaredNoBom(line);
    }
  }

  lemma BaredNoBom(line: string)
    requires Strip(Bared(line)) == Bared(line)
    ensures NoBom(Bared(line))
  {
    hide KeyOf, ValueOf, IsComment, Strip;
    var b := Bared(line);
    assert b != "" ==> !IsBom(b[0]);
  }

  lemma UnmarkedOneLine(line: string)
    requires OneLine(line)
    ensures OneLine(Unmarked(line))
  {
    hide All, NoBom, Bared;
    BaredOneLine(line);
  }

  lemma SameWrites(a: string, b: string)
    requires Bared(a) == Bared(b)
    ensures WritesPrefix(a) <==> WritesPrefix(b)
  {
    hide Bared, Matches, IsComment;
  }

  // ---- All lines --------------------------------------------------------

  lemma CleanCons(line: string, rest: seq<string>)
    ensures Clean([line] + rest) == [Unmarked(line)] + Clean(rest)
    ensures AreHarmless([line] + rest) <==> Harmless(line) && AreHarmless(rest)
  {
    HarmlessCons(line, rest);
    hide Unmarked, Harmless, AreHarmless;
    var lines := [line] + rest;
    forall i | 0 <= i < |lines|
      ensures Clean(lines)[i] == ([Unmarked(line)] + Clean(rest))[i]
    {
      assert lines[i] == if i == 0 then line else rest[i - 1];
    }
  }

  lemma HarmlessCons(line: string, rest: seq<string>)
    ensures AreHarmless([line] + rest) <==> Harmless(line) && AreHarmless(rest)
  {
    hide Harmless;
    var lines := [line] + rest;
    assert lines[0] == line;
    assert forall i :: 0 <= i < |rest| ==> lines[i + 1] == rest[i];
  }

  /** The rewriter does not see the difference. */
  lemma {:induction false} CleanRewrites(lines: seq<string>, prefix: string, kernel: string, left: seq<string>)
    requires AreHarmless(lines)
    ensures RewriteLines(Clean(lines), prefix, kernel, left) == RewriteLines(lines, prefix, kernel, left)
    decreases |lines|
  {
    hide RewriteLine, RewriteLines, Unmarked, Harmless, AreHarmless, PutBefore, Bared, Clean;
    if lines == [] {
      CleanNone();
    } else {
      var line, rest := lines[0], lines[1..];
      assert lines == [line] + rest;
      CleanCons(line, rest);
      UnmarkedIs(line);
      SameBared(Unmarked(line), line, prefix, kernel, left);
      RewriteCons(line, rest, prefix, kernel, left);
      RewriteCons(Unmarked(line), Clean(rest), prefix, kernel, left);
      var o := RewriteLine(line, prefix, kernel, left);
      assert left[0..] == left;
      CleanRewrites(rest, prefix, kernel, left[if o.Written? then o.used else 0..]);
    }
  }

  lemma CleanNone()
    ensures Clean([]) == []
  {
  }

  lemma {:induction false} CleanWrites(lines: seq<string>)
    requires AreHarmless(lines)
    ensures AnyWritesPrefix(Clean(lines)) <==> AnyWritesPrefix(lines)
    ensures BomFree(Clean(lines)) && (NoBreaks(lines) ==> NoBreaks(Clean(lines)))
    decreases |lines|
  {
    hide WritesPrefix, AnyWritesPrefix, Unmarked, Harmless, AreHarmless, Bared, Clean, NoBom, NoBreaks, BomFree, All;
    if lines == [] {
      CleanNone();
      NothingWritten();
    } else {
      var line, rest := lines[0], lines[1..];
      assert lines == [line] + rest;
      CleanCons(line, rest);
      UnmarkedIs(line);
      SameWrites(Unmarked(line), line);
      AnyWritesCons(line, rest);
      AnyWritesCons(Unmarked(line), Clean(rest));
      CleanWrites(rest);
      BomFreeCons(Unmarked(line), Clean(rest));
      if NoBreaks(lines) {
        FirstOneLine(lines);
        UnmarkedOneLine(line);
        NoBreaksCons(Unmarked(line), Clean(rest));
      }
    }
  }

  lemma NothingWritten()
    ensures BomFree([]) && NoBreaks([]) && !AnyWritesPrefix([])
  {
  }

  // ---- Marks at the start of the file -----------------------------------

  /** Taking the marks off first and the white space second gives the same line. */
  lemma HeadBared(line: string, n: nat)
    requires 0 < n <= |line| && All(IsBom, line[..n]) && (n < |line| ==> !IsBom(line[n]))
    requires Bared(line) != "" && LeftTrimmed(Bared(line))
    ensures Bared(line[n..]) == Bared(line)
  {
    var k := HeadStrip(line, n);
    var s := line[n..k];
    assert !IsSpace(s[0]) && !IsBom(s[0]) && !IsSpace(s[|s| - 1]);
    assert line[n..] == "" + s + line[k..];
    EmptyAll(IsSpace);
    EmptyAll(IsBom);
    hide Trim, All;
    TrimPadded(IsSpace, "", s, line[k..]);
    assert "" + s == s;
    SpanOf(IsBom, "", s);
  }

  lemma HeadStrip(line: string, n: nat) returns (k: nat)
    requires 0 < n <= |line| && All(IsBom, line[..n]) && (n < |line| ==> !IsBom(line[n]))
    requires Bared(line) != "" && LeftTrimmed(Bared(line))
    ensures n < k <= |line| && Bared(line) == line[n..k] && All(IsSpace, line[k..]) && !IsSpace(line[k - 1])
  {
    assert IsBom(line[..n][0]) && !IsSpace(line[0]);
    hide Strip, All, IsSpace, Span;
    k := StripTail(line);
    if k <= n {
      AllMarks(line, n, k);
    } else {
      assert line[..k][..n] == line[..n];
      BomCount(line[..k], n);
      assert line[..k][n..] == line[n..k];
    }
  }

  /** Only the end of a line without leading space is stripped. */
  lemma StripTail(line: string) returns (k: nat)
    requires line != "" && !IsSpace(line[0])
    ensures k <= |line| && Strip(line) == line[..k] && All(IsSpace, line[k..]) && (k > 0 ==> !IsSpace(line[k - 1]))
  {
    EmptyAll(IsSpace);
    assert "" + line == line;
    SpanOf(IsSpace, "", line);
    hide All, Span, IsSpace;
    assert line[0..] == line;
    k := Kept(IsSpace, line);
  }

  lemma BomCount(s: string, n: nat)
    requires n < |s| && All(IsBom, s[..n]) && !IsBom(s[n])
    ensures Span(IsBom, s) == n
  {
    hide All;
    Parted(s, n);
    SpanOf(IsBom, s[..n], s[n..]);
  }

  lemma AllMarks(line: string, n: nat, k: nat)
    requires k <= n <= |line| && All(IsBom, line[..n])
    ensures TrimLeft(IsBom, line[..k]) == ""
  {
    assert forall i :: 0 <= i < k ==> line[..k][i] == line[..n][i];
    assert All(IsBom, line[..k]) && line[..k] + "" == line[..k];
    hide All;
    SpanOf(IsBom, line[..k], "");
  }

  lemma SameRest(a: string, b: string, rest: seq<string>, prefix: string, kernel: string, left: seq<string>)
    requires Bared(a) == Bared(b)
    ensures RewriteLines([a] + rest, prefix, kernel, left) == RewriteLines([b] + rest, prefix, kernel, left)
    ensures AnyWritesPrefix([a] + rest) <==> AnyWritesPrefix([b] + rest)
  {
    hide RewriteLine, RewriteLines, Bared, WritesPrefix, AnyWritesPrefix;
    SameBared(a, b, prefix, kernel, left);
    RewriteCons(a, rest, prefix, kernel, left);
    RewriteCons(b, rest, prefix, kernel, left);
    SameWrites(a, b);
    AnyWritesCons(a, rest);
    AnyWritesCons(b, rest);
  }

  lemma FirstHarmless(line: string, rest: seq<string>, n: nat, prefix: string, kernel: string, left: seq<string>)
    requires 0 < n <= |line| && All(IsBom, line[..n]) && (n < |line| ==> !IsBom(line[n])) && Harmless(line)
    ensures
      var r := RewriteLines([line] + rest, prefix, kernel, left);
      var w := AnyWritesPrefix([line] + rest);
      && r == RewriteLines([line[n..]] + rest, prefix, kernel, left)
      && (w <==> AnyWritesPrefix([line[n..]] + rest))
      && (line[n..] == "" ==> r == RewriteLines(rest, prefix, kernel, left) && (w <==> AnyWritesPrefix(rest)))
  {
    hide RewriteLines, AnyWritesPrefix, All, Read, Bared, LeftTrimmed;
    if NoBom(line) {
      BomAssigns(line, n);
      SkipFirst([line] + rest, prefix, kernel, left);
      SkipFirst([line[n..]] + rest, prefix, kernel, left);
      assert ([line] + rest)[1..] == rest && ([line[n..]] + rest)[1..] == rest;
    } else {
      MarkedNotEmpty(line, n);
      if Bared(line) != "" {
        HeadBared(line, n);
        SameRest(line, line[n..], rest, prefix, kernel, left);
      }
    }
  }

  lemma MarkedNotEmpty(line: string, n: nat)
    requires n <= |line| && All(IsBom, line[..n]) && !NoBom(line)
    ensures line[n..] != "" && Bared(line) != ""
  {
    var s := Strip(line);
    hide Strip, KeyOf, ValueOf, IsComment;
    EqualsStripped(line);
    NotAllMarks(line, n);
    NotAllMarks(s, Span(IsBom, s));
  }

  lemma NotAllMarks(s: string, n: nat)
    requires '=' in s && n <= |s| && All(IsBom, s[..n])
    ensures s[n..] != ""
  {
    MarksNotEquals(s[..n]);
    NoEqualsIn(s[..n]);
    Parted(s, n);
  }

  /** The cleaned lines stand for the file. */
  lemma HarmlessStands(raw: string, prefix: string, kernel: string, paths: seq<string>)
    requires AreHarmless(LogicalLines(raw))
    ensures StandFor(Clean(LogicalLines(raw)), raw, prefix, kernel, paths)
    ensures BomFree(Clean(LogicalLines(raw))) && NoBreaks(Clean(LogicalLines(raw)))
  {
    var lines := LogicalLines(raw);
    var t := Merged(raw);
    var n := Span(IsBom, t);
    assert SourceLines(raw) == SplitLines(t[n..]) && (n < |t| ==> !IsBom(t[n]));
    assert lines == SplitLines(t) && NoBreaks(lines);
    hide Merged, SplitLines, RewriteLines, AnyWritesPrefix, All, Harmless, AreHarmless, Clean, NoBreaks, Span,
         SourceLines, LogicalLines, BomFree;
    CleanRewrites(lines, prefix, kernel, paths);
    CleanWrites(lines);
    if n == 0 {
      assert t[0..] == t;
    } else {
      var line, rest := CutShape(t, n);
      CleanCons(line, rest);
      FirstHarmless(line, rest, n, prefix, kernel, paths);
    }
  }

  // ---- What the lines assign --------------------------------------------

  lemma MarkedIsPlain(line: string)
    requires !NoBom(line)
    ensures Read(line).Some? && KindOf(Read(line).value.key) == PlainKey
  {
    WrittenMarks(line, "", "", []);
    KeysNoMark();
    hide Read, KindOf, Marks, Front, RewriteLine;
    KindIs(Read(line).value.key);
    KindsAre(Read(line).value.key);
  }

  lemma KindsAre(key: string)
    ensures KindOf(key) == PrefixKey || KindOf(key) == KernelKey || KindOf(key) == OptionKey ||
            KindOf(key) == ModulesKey || KindOf(key) == ModuleKey || KindOf(key) == PlainKey
  {
  }

  lemma PlainNoModules(a: Assignment)
    requires KindOf(a.key) == PlainKey
    ensures ModulesOf(a) == []
  {
  }

  predicate KeyIn(items: seq<Assignment>, key: string) {
    items != [] && (items[0].key == key || KeyIn(items[1..], key))
  }

  lemma KeyInCons(a: Assignment, rest: seq<Assignment>, key: string)
    ensures KeyIn([a] + rest, key) <==> a.key == key || KeyIn(rest, key)
  {
    assert ([a] + rest)[1..] == rest;
  }

  /** A key has a value once something was assigned to it. */
  lemma {:induction false} KeysHold(kv: map<string, string>, items: seq<Assignment>, key: string)
    requires !KindOf(key).ModuleKey? && !KindOf(key).ModulesKey?
    ensures key in Keys(kv, items) <==> key in kv || KeyIn(items, key)
    decreases |items|
  {
    hide KindOf;
    if items != [] { KeysHold(Put(kv, items[0]), items[1..], key); }
  }

  /** Cleaning changes neither the modules nor the kernel. */
  lemma {:induction false} CleanAssigns(lines: seq<string>)
    requires AreHarmless(lines)
    ensures ModuleList(ReadLines(Clean(lines))) == ModuleList(ReadLines(lines))
    ensures KeyIn(ReadLines(Clean(lines)), KERNEL) <==> KeyIn(ReadLines(lines), KERNEL)
    decreases |lines|
  {
    hide Read, ReadLines, Clean, AreHarmless, Harmless, Unmarked, ModuleList, KeyIn, KERNEL;
    if lines == [] {
      CleanNone();
    } else {
      var line, rest := lines[0], lines[1..];
      assert lines == [line] + rest;
      CleanCons(line, rest);
      CleanAssigns(rest);
      LineAssigns(line, rest, Clean(rest));
    }
  }

  lemma LineAssigns(line: string, rest: seq<string>, clean: seq<string>)
    requires Harmless(line) && ModuleList(ReadLines(clean)) == ModuleList(ReadLines(rest))
    requires KeyIn(ReadLines(clean), KERNEL) <==> KeyIn(ReadLines(rest), KERNEL)
    ensures ModuleList(ReadLines([Unmarked(line)] + clean)) == ModuleList(ReadLines([line] + rest))
    ensures KeyIn(ReadLines([Unmarked(line)] + clean), KERNEL) <==> KeyIn(ReadLines([line] + rest), KERNEL)
  {
    hide Read, ReadLines, ModuleList, KeyIn, KERNEL, KindOf, Bared, LeftTrimmed;
    AddsPlain(line, rest);
    AddsPlain(Unmarked(line), clean);
    if NoBom(line) {
      AddsSame(line, rest, clean);
    } else {
      MarkedIsPlain(line);
    }
  }

  /** A line that assigns nothing special adds neither a module nor the kernel. */
  lemma AddsPlain(line: string, rest: seq<string>)
    ensures (Read(line).Some? ==> KindOf(Read(line).value.key) == PlainKey) ==>
              ModuleList(ReadLines([line] + rest)) == ModuleList(ReadLines(rest)) &&
              (KeyIn(ReadLines([line] + rest), KERNEL) <==> KeyIn(ReadLines(rest), KERNEL))
  {
    KindsOfKeys();
    hide Read, ReadLines, ModuleList, KeyIn, KERNEL, KindOf;
    ReadCons(line, rest);
    assert [] + ReadLines(rest) == ReadLines(rest);
    if Read(line).Some? && KindOf(Read(line).value.key) == PlainKey {
      var a := Read(line).value;
      PlainNoModules(a);
      ModuleListCons(a, ReadLines(rest));
      KeyInCons(a, ReadLines(rest), KERNEL);
      assert [] + ModuleList(ReadLines(rest)) == ModuleList(ReadLines(rest));
    }
  }

  lemma ModuleListCons(a: Assignment, rest: seq<Assignment>)
    ensures ModuleList([a] + rest) == ModulesOf(a) + ModuleList(rest)
  {
    hide ModulesOf;
    assert ([a] + rest)[1..] == rest;
  }

  lemma AddsSame(line: string, rest: seq<string>, clean: seq<string>)
    requires ModuleList(ReadLines(clean)) == ModuleList(ReadLines(rest))
    requires KeyIn(ReadLines(clean), KERNEL) <==> KeyIn(ReadLines(rest), KERNEL)
    ensures ModuleList(ReadLines([line] + clean)) == ModuleList(ReadLines([line] + rest))
    ensures KeyIn(ReadLines([line] + clean), KERNEL) <==> KeyIn(ReadLines([line] + rest), KERNEL)
  {
    hide Read, ReadLines, ModuleList, KeyIn, KERNEL, ModulesOf;
    ReadCons(line, rest);
    ReadCons(line, clean);
    assert [] + ReadLines(rest) == ReadLines(rest) && [] + ReadLines(clean) == ReadLines(clean);
    if Read(line).Some? {
      var a := Read(line).value;
      ModuleListCons(a, ReadLines(rest));
      ModuleListCons(a, ReadLines(clean));
      KeyInCons(a, ReadLines(rest), KERNEL);
      KeyInCons(a, ReadLines(clean), KERNEL);
    }
  }

  /** With harmless marks only, the rewriter raises no error exactly when it is given as many
      paths as the parser found modules. */
  lemma HarmlessIsOk(raw: string, httpPrefix: string, kernel: string, paths: seq<string>)
    requires AreHarmless(LogicalLines(raw))
    ensures Rewrite(raw, httpPrefix, kernel, paths).Ok? <==> |ModuleList(Assignments(raw))| == |paths|
  {
    var lines := Clean(LogicalLines(raw));
    hide Merged, SplitLines, NoBreaks, ModuleList, RewriteLines, OutLines, SourceLines, ReadLines, Clean,
         AreHarmless, BomFree, FullPrefix, AnyWritesPrefix;
    HarmlessStands(raw, FullPrefix(httpPrefix), kernel, paths);
    CleanAssigns(LogicalLines(raw));
    RewriteSucceeds(lines, FullPrefix(httpPrefix), kernel, paths);
  }
}
