/** Byte order marks in a boot.cfg: the rewriter takes them off a line and the parser reads
    them as part of its key, so no line with one is ever read back as it should be. */
module MarkLaws {
  import opened Text
  import opened Url
  import opened ConfigLine
  import opened Kernelopt
  import opened Kickstart
  import opened KickstartLaws
  import opened Modules
  import opened Refresh
  import opened RefreshText
  import opened BootCfg
  import opened ReadBack
  import opened BootCfgLaws

  // ---- Counting marks ---------------------------------------------------

  function Marks(s: string): nat {
    if s == "" then 0 else (if s[0] == BOM then 1 else 0) + Marks(s[1..])
  }

  lemma {:induction false} MarksConcat(a: string, b: string)
    ensures Marks(a + b) == Marks(a) + Marks(b)
  {
    if a == "" {
      assert a + b == b;
    } else {
      assert (a + b)[1..] == a[1..] + b;
      MarksConcat(a[1..], b);
    }
  }

  lemma {:induction false} MarksNone(s: string)
    requires BOM !in s
    ensures Marks(s) == 0
  {
    if s != "" { MarksNone(s[1..]); }
  }

  lemma {:induction false} MarksAll(s: string)
    requires All(IsBom, s)
    ensures Marks(s) == |s|
  {
    if s != "" {
      assert IsBom(s[0]);
      MarksAll(s[1..]);
    }
  }

  lemma {:induction false} MarksLower(s: string)
    ensures Marks(Lower(s)) == Marks(s)
  {
    if s != "" {
      MarksLower(s[1..]);
      assert Lower(s)[1..] == Lower(s[1..]);
    }
  }

  lemma SpacesNoMark(a: string)
    requires All(IsSpace, a)
    ensures Marks(a) == 0
  {
    assert forall i :: 0 <= i < |a| ==> IsSpace(a[i]);
    MarksNone(a);
  }

  lemma MarksStrip(s: string)
    ensures Marks(Strip(s)) == Marks(s)
  {
    var a, b := TrimSplit(IsSpace, s);
    SpacesNoMark(a);
    SpacesNoMark(b);
    hide Trim, All, Marks;
    MarksConcat(a + Strip(s), b);
    MarksConcat(a, Strip(s));
  }

  /** The marks before the first equals sign of a line. */
  function LineMarks(line: string): nat { if '=' in line then Marks(Before(NotEquals, line)) else 0 }

  /** The marks in the key of what a line assigns. */
  function ReadMarks(line: string): nat { if Read(line).Some? then Marks(Read(line).value.key) else 0 }

  function TotalMarks(lines: seq<string>): nat {
    if lines == [] then 0 else LineMarks(lines[0]) + TotalMarks(lines[1..])
  }

  function KeyMarks(items: seq<Assignment>): nat {
    if items == [] then 0 else Marks(items[0].key) + KeyMarks(items[1..])
  }

  lemma KeyOfMarks(line: string)
    requires '=' in line
    ensures Marks(KeyOf(line)) == LineMarks(line)
  {
    hide Marks, Strip, Lower;
    MarksLower(Strip(Before(NotEquals, line)));
    MarksStrip(Before(NotEquals, line));
  }

  /** Padding does not change what a line assigns. */
  lemma StrippedMarks(line: string)
    ensures LineMarks(Strip(line)) == LineMarks(line)
    ensures ReadMarks(line) == if Read(line).Some? then LineMarks(line) else 0
    ensures ReadMarks(line) <= LineMarks(line)
  {
    var a, b := TrimSplit(IsSpace, line);
    var s := Strip(line);
    assert line == a + s + b;
    EqualsStripped(line);
    hide Strip, Trim, All, Marks, KeyOf, ValueOf, LineMarks, IsSpace, IsComment;
    if '=' in s {
      ReadPadded(a, s, b);
      KeyOfMarks(line);
      KeyOfMarks(s);
    } else {
      NoEqualsNoMarks(line);
      NoEqualsNoMarks(s);
    }
  }

  lemma NoEqualsNoMarks(line: string)
    requires '=' !in line
    ensures LineMarks(line) == 0
  {
  }

  lemma {:induction false} ReadSum(lines: seq<string>)
    ensures KeyMarks(ReadLines(lines)) <= TotalMarks(lines)
  {
    hide Read, Marks, LineMarks;
    if lines != [] {
      ReadSum(lines[1..]);
      StrippedMarks(lines[0]);
      KeyMarksCons(lines[0], lines[1..]);
      assert lines == [lines[0]] + lines[1..];
    }
  }

  lemma KeyMarksCons(line: string, rest: seq<string>)
    ensures KeyMarks(ReadLines([line] + rest)) == ReadMarks(line) + KeyMarks(ReadLines(rest))
  {
    hide Read, Marks, ReadLines;
    ReadCons(line, rest);
    var items := ReadLines(rest);
    if Read(line).Some? {
      assert ([Read(line).value] + items)[1..] == items;
    } else {
      assert [] + items == items;
    }
  }

  // ---- What the rewriter writes -----------------------------------------

  /** Taking marks off the front of a line. */
  lemma MarksOff(s: string, n: nat)
    requires n <= |s| && All(IsBom, s[..n])
    ensures '=' in s <==> '=' in s[n..]
    ensures '=' in s ==> LineMarks(s) == n + LineMarks(s[n..])
  {
    MarksNotEquals(s[..n]);
    NoEqualsIn(s[..n]);
    assert s == s[..n] + s[n..];
    hide All, Marks, Span, Before;
    if '=' in s[n..] {
      BeforeOff(s[..n], s[n..]);
      MarksAll(s[..n]);
      MarksConcat(s[..n], Before(NotEquals, s[n..]));
    }
  }

  lemma BeforeOff(a: string, b: string)
    requires All(NotEquals, a) && '=' in b
    ensures Before(NotEquals, a + b) == a + Before(NotEquals, b)
  {
    HasEquals(b);
    var m := Span(NotEquals, b);
    hide All, Span;
    AllConcat(NotEquals, a, b[..m]);
    SpanOf(NotEquals, a + b[..m], b[m..]);
    assert b == b[..m] + b[m..];
    Assoc(a, b[..m], b[m..]);
    assert ((a + b[..m]) + b[m..])[..|a| + m] == a + b[..m];
  }

  lemma MarksNotEquals(s: string)
    requires All(IsBom, s)
    ensures All(NotEquals, s)
  {
    assert forall i :: 0 <= i < |s| ==> IsBom(s[i]);
  }

  lemma NamedMarks(name: string, x: string)
    requires All(NotEquals, name) && BOM !in name
    ensures LineMarks(name + "=" + x) == 0 && '=' in name + "=" + x
  {
    var line := name + "=" + x;
    assert line == name + ("=" + x) && line[|name|] == '=';
    hide All;
    CutAt(NotEquals, name, "=" + x);
    MarksNone(name);
  }

  lemma KeyNames()
    ensures All(NotEquals, "prefix") && All(NotEquals, "kernel") && All(NotEquals, "kernelopt")
    ensures All(NotEquals, "modules") && All(NotEquals, "module")
    ensures BOM !in "prefix" && BOM !in "kernel" && BOM !in "kernelopt" && BOM !in "modules" && BOM !in "module"
    ensures "prefix=" == "prefix" + "=" && "kernel=" == "kernel" + "=" && "kernelopt=" == "kernelopt" + "="
    ensures "modules=" == "modules" + "=" && "module=" == "module" + "="
  {
  }

  /** A written line is the line without its marks, or a line whose key has none. */
  lemma WrittenShape(line: string, prefix: string, kernel: string, left: seq<string>)
    ensures
      var r := RewriteLine(line, prefix, kernel, left);
      r.Written? ==>
        '=' in Bared(line) && !IsComment(Bared(line)) && '=' in r.line
        && (r.line == Bared(line) || LineMarks(r.line) == 0)
  {
    var b := Bared(line);
    KeyNames();
    hide Marks, LineMarks, Bared, Matches, IsComment, Segments, Normalize, ValueOf, JoinModules, All;
    NamedMarks("prefix", prefix);
    NamedMarks("kernel", kernel);
    NamedMarks("kernelopt", Normalize(ValueOf(b)));
    if |Segments(ValueOf(b))| <= |left| { NamedMarks("modules", JoinModules(left[..|Segments(ValueOf(b))|])); }
    if left != [] { NamedMarks("module", left[0]); }
    if Matches(PREFIX, b) || Matches(PREFIX_HTTP, b) || Matches(KERNEL, b) || Matches(KERNELOPT, b)
       || Matches(MODULES, b) || Matches(MODULE, b) {
      KeyHasEquals(b);
    }
  }

  lemma KeyHasEquals(b: string)
    requires Matches(PREFIX, b) || Matches(PREFIX_HTTP, b) || Matches(KERNEL, b) || Matches(KERNELOPT, b)
             || Matches(MODULES, b) || Matches(MODULE, b)
    ensures '=' in b
  {
    hide Matches;
    if Matches(PREFIX, b) { MatchesHasEquals(PREFIX, b); }
    if Matches(PREFIX_HTTP, b) { MatchesHasEquals(PREFIX_HTTP, b); }
    if Matches(KERNEL, b) { MatchesHasEquals(KERNEL, b); }
    if Matches(KERNELOPT, b) { MatchesHasEquals(KERNELOPT, b); }
    if Matches(MODULES, b) { MatchesHasEquals(MODULES, b); }
    if Matches(MODULE, b) { MatchesHasEquals(MODULE, b); }
  }

  /** How many marks stand in front of a stripped line. */
  function Front(line: string): nat { Span(IsBom, Strip(line)) }

  /** A written line has as many marks fewer in its key as the rewriter took off, and those of
      the other key are gone. */
  lemma WrittenMarks(line: string, prefix: string, kernel: string, left: seq<string>)
    ensures
      var r := RewriteLine(line, prefix, kernel, left);
      && (r.Written? ==> '=' in r.line && LineMarks(r.line) + Front(line) <= ReadMarks(line))
      && (Read(line).Some? ==> Front(line) <= ReadMarks(line))
      && (!NoBom(line) ==> Read(line).Some? && Front(line) > 0)
  {
    var s, n, b := Strip(line), Front(line), Bared(line);
    assert b == s[n..] && All(IsBom, s[..n]);
    MarksOff(s, n);
    StrippedMarks(line);
    WrittenShape(line, prefix, kernel, left);
    FrontOfMark(line);
    CommentStays(line);
    EqualsStripped(line);
    hide Marks, LineMarks, ReadMarks, RewriteLine, Bared, Strip, All, Span, IsComment, KeyOf, ValueOf;
  }

  lemma FrontOfMark(line: string)
    ensures !NoBom(line) ==> Read(line).Some? && Front(line) > 0
  {
    hide Strip, KeyOf, ValueOf, IsComment;
  }

  lemma CommentStays(line: string)
    ensures Strip(line) != "" && IsComment(Strip(line)) ==> Bared(line) == Strip(line)
  {
    var s := Strip(line);
    hide Strip;
    EmptyAll(IsBom);
    assert "" + s == s;
    if s != "" && IsComment(s) { SpanOf(IsBom, "", s); }
  }

  predicate AllAssign(lines: seq<string>) { forall i :: 0 <= i < |lines| ==> '=' in lines[i] }

  lemma AssignCons(line: string, rest: seq<string>)
    requires '=' in line && AllAssign(rest)
    ensures AllAssign([line] + rest)
    ensures TotalMarks([line] + rest) == LineMarks(line) + TotalMarks(rest)
  {
    hide LineMarks;
    assert ([line] + rest)[1..] == rest;
  }

  /** The written lines have no more marks in their keys than the source's assignments, and
      fewer when one of these starts with a mark. */
  lemma {:induction false} LinesMarks(lines: seq<string>, prefix: string, kernel: string, left: seq<string>)
    requires RewriteLines(lines, prefix, kernel, left).Ok?
    ensures
      var out := RewriteLines(lines, prefix, kernel, left).value.out;
      && AllAssign(out) && TotalMarks(out) <= KeyMarks(ReadLines(lines))
      && (!BomFree(lines) ==> TotalMarks(out) < KeyMarks(ReadLines(lines)))
    decreases |lines|
  {
    hide LineMarks, ReadMarks, RewriteLine, ReadLines, KeyMarks, Front, NoBom, BomFree, RewriteLines, Read,
         TotalMarks, AllAssign;
    if lines == [] {
      NoLines(prefix, kernel, left);
    } else {
      var line, rest := lines[0], lines[1..];
      assert lines == [line] + rest;
      RewriteCons(line, rest, prefix, kernel, left);
      WrittenMarks(line, prefix, kernel, left);
      KeyMarksCons(line, rest);
      MarkedCons(line, rest);
      var o := RewriteLine(line, prefix, kernel, left);
      var later := left[if o.Written? then o.used else 0..];
      assert left[0..] == left;
      LinesMarks(rest, prefix, kernel, later);
      if o.Written? { AssignCons(o.line, RewriteLines(rest, prefix, kernel, later).value.out); }
    }
  }

  lemma NoLines(prefix: string, kernel: string, left: seq<string>)
    ensures RewriteLines([], prefix, kernel, left) == Ok(Pass([], left)) && AllAssign([]) && TotalMarks([]) == 0
    ensures BomFree([])
  {
  }

  lemma MarkedCons(line: string, rest: seq<string>)
    ensures BomFree([line] + rest) <==> NoBom(line) && BomFree(rest)
  {
    hide NoBom;
    var lines := [line] + rest;
    assert lines[0] == line;
    assert forall i :: 0 <= i < |rest| ==> lines[i + 1] == rest[i];
  }

  // ---- The lines the rewriter starts from -------------------------------

  /** The first line with and without the marks at its start, or without the line. */
  lemma FirstMarks(line: string, rest: seq<string>, n: nat)
    requires 0 < n <= |line| && All(IsBom, line[..n])
    ensures
      var most := KeyMarks(ReadLines([line] + rest));
      && KeyMarks(ReadLines([line[n..]] + rest)) <= most && KeyMarks(ReadLines(rest)) <= most
      && (!BomFree([line] + rest) && BomFree(rest) ==>
            KeyMarks(ReadLines([line[n..]] + rest)) < most && KeyMarks(ReadLines(rest)) < most)
    ensures BomFree([line[n..]] + rest) ==> BomFree(rest)
  {
    hide BomFree, NoBom, All, Read, ReadLines, KeyMarks, ReadMarks;
    HeadMarks(line, n);
    KeyMarksCons(line, rest);
    KeyMarksCons(line[n..], rest);
    MarkedCons(line, rest);
    MarkedCons(line[n..], rest);
  }

  /** The lines of a text without the marks at its start. */
  lemma CutShape(t: string, n: nat) returns (line: string, rest: seq<string>)
    requires 0 < n <= |t| && All(IsBom, t[..n])
    ensures n <= |line| && All(IsBom, line[..n]) && SplitLines(t) == [line] + rest
    ensures SplitLines(t[n..]) == [line[n..]] + rest || (SplitLines(t[n..]) == rest && line[n..] == "")
    ensures |line| <= |t| && line == t[..|line|]
  {
    var m := Span(NotBreak, t);
    hide SplitLines, All, NoBreaks, Span, BehindFirst;
    BomHead(t, n);
    FirstLine(t);
    line, rest := t[..m], SplitLines(BehindFirst(t));
    assert t[..m][..n] == t[..n];
    if t[n..] != "" {
      FirstLine(t[n..]);
      assert t[n..][..m - n] == t[..m][n..];
    } else {
      AllBom(t);
      NothingBehind();
    }
  }

  /** Marks at the start of the file: the rewriter takes them off before it splits the lines. */
  lemma SourceMarks(raw: string)
    ensures KeyMarks(ReadLines(SourceLines(raw))) <= KeyMarks(ReadLines(LogicalLines(raw)))
    ensures !BomFree(LogicalLines(raw)) && BomFree(SourceLines(raw)) ==>
            KeyMarks(ReadLines(SourceLines(raw))) < KeyMarks(ReadLines(LogicalLines(raw)))
  {
    var t := Merged(raw);
    var n := Span(IsBom, t);
    assert SourceLines(raw) == SplitLines(t[n..]);
    hide Merged, BomFree, SplitLines, All, NoBreaks, ReadLines, KeyMarks, Span, SourceLines;
    if n == 0 {
      assert t[0..] == t;
    } else {
      var line, rest := CutShape(t, n);
      FirstMarks(line, rest, n);
    }
  }

  lemma NothingBehind()
    ensures SplitLines("") == []
  {
  }

  lemma HeadMarks(line: string, n: nat)
    requires 0 < n <= |line| && All(IsBom, line[..n])
    ensures ReadMarks(line[n..]) <= ReadMarks(line)
    ensures !NoBom(line) ==> ReadMarks(line[n..]) < ReadMarks(line)
  {
    MarksOff(line, n);
    StrippedMarks(line);
    StrippedMarks(line[n..]);
    if NoBom(line) {
      BomAssigns(line, n);
    } else {
      EqualsStripped(line);
      hide Marks, LineMarks, Strip, KeyOf, ValueOf, IsComment, All;
    }
  }

  // ---- Reading the written file back ------------------------------------

  /** A text put behind a line with an equals sign does not change its key. */
  lemma MarksBehind(buf: string, s: string)
    ensures '=' in buf ==> '=' in buf + s && LineMarks(buf + s) == LineMarks(buf)
    ensures buf == "" ==> buf + s == s
  {
    if '=' in buf {
      HasEquals(buf);
      var n := Span(NotEquals, buf);
      assert (buf + s)[n] == '=' && buf + s == buf[..n] + (buf + s)[n..];
      hide All;
      SpanOf(NotEquals, buf[..n], (buf + s)[n..]);
      assert (buf + s)[..n] == buf[..n];
    }
  }

  lemma ContinuedMarks(line: string)
    requires IsContinued(line) && '=' in line
    ensures '=' in Continued(line) && LineMarks(Continued(line)) == LineMarks(line)
  {
    var c := ContinuedCut(line);
    hide LineMarks, Continued;
    assert line == line[..c] + line[c..];
    MarksBehind(line[..c], line[c..]);
  }

  lemma ContinuedCut(line: string) returns (c: nat)
    requires IsContinued(line) && '=' in line
    ensures c <= |line| && Continued(line) == line[..c] && '=' in line[..c]
  {
    var k := |line| - 1;
    var i: nat :| i < |line| && line[i] == '=';
    c := Kept(IsSpace, line[..k]);
    assert i < k && line[..k][i] == '=';
    KeptPast(line[..k], i);
    assert line[..k][..c] == line[..c] && line[..c][i] == '=';
  }

  /** Trimming the end of a text keeps what is no space. */
  lemma KeptPast(s: string, n: nat)
    requires n < |s| && !IsSpace(s[n])
    ensures Kept(IsSpace, s) > n
  {
  }

  /** Joining continued lines keeps the key of the first and loses those of the others. */
  lemma {:induction false} MergedMarks(lines: seq<string>, buf: string)
    requires NoBreaks(lines) && AllAssign(lines) && (buf == "" || '=' in buf)
    ensures TotalMarks(MergePieces(lines + [""], buf)) <= LineMarks(buf) + TotalMarks(lines)
    decreases |lines|
  {
    hide All, LineMarks, IsContinued, Continued, MergePieces, NoBreaks, TotalMarks;
    if lines == [] {
      assert lines + [""] == [""];
      MergeLast(buf);
      LastMarks(buf);
    } else {
      var line, rest := lines[0], lines[1..];
      assert lines == [line] + rest && '=' in line;
      FirstOneLine(lines);
      Assoc([line], rest, [""]);
      MergeStep(line, rest + [""], buf);
      assert AllAssign(rest);
      TotalCons(line, rest);
      NoEqualsNoMarks("");
      if IsContinued(line) {
        ContinuedMarks(line);
        MarksBehind(buf, Continued(line));
        MergedMarks(rest, buf + Continued(line));
      } else {
        MarksBehind(buf, line);
        MergedMarks(rest, "");
        TotalCons(buf + line, MergePieces(rest + [""], ""));
      }
    }
  }

  lemma TotalCons(line: string, rest: seq<string>)
    ensures TotalMarks([line] + rest) == LineMarks(line) + TotalMarks(rest)
  {
    hide LineMarks;
    assert ([line] + rest)[1..] == rest;
  }

  lemma LastMarks(buf: string)
    ensures TotalMarks([buf]) == LineMarks(buf) && TotalMarks([]) == 0
  {
    hide LineMarks;
    assert [buf][1..] == [];
  }

  lemma FirstOneLine(lines: seq<string>)
    requires lines != [] && NoBreaks(lines)
    ensures OneLine(lines[0]) && NoBreaks(lines[1..])
  {
    hide All;
  }

  /** The assignments of the written file have no more marks in their keys than its lines. */
  lemma FileMarks(body: seq<string>)
    requires NoBreaks(body) && AllAssign(body)
    ensures KeyMarks(Assignments(Unlines([HEADER] + body))) <= TotalMarks(body)
  {
    HeaderLine();
    hide All, Read, NoBreaks, IsContinued, MergePieces, ReadLines, Unlines, LineMarks, KeyMarks, TotalMarks,
         AllAssign, HEADER, Assignments;
    NoBreaksCons(HEADER, body);
    WrittenAssignments([HEADER] + body);
    Assoc([HEADER], body, [""]);
    MergeStep(HEADER, body + [""], "");
    assert "" + HEADER == HEADER;
    ReadNone(HEADER, MergePieces(body + [""], ""));
    ReadSum(MergePieces(body + [""], ""));
    MergedMarks(body, "");
    NoEqualsNoMarks("");
  }

  // ---- What was expected ------------------------------------------------

  lemma KeysNoMark()
    ensures Marks(PREFIX) == 0 && Marks(PREFIX_HTTP) == 0 && Marks(KERNEL) == 0 && Marks(KERNELOPT) == 0
    ensures Marks(MODULES) == 0 && Marks(MODULE) == 0
  {
    PrefixesNoMark();
    KeyNames();
    hide Marks;
    MarksNone("prefix");
    MarksNone("kernel");
    MarksNone("kernelopt");
    MarksNone("modules");
    MarksNone("module");
  }

  lemma PrefixesNoMark()
    ensures Marks(PREFIX_HTTP) == 0
  {
    assert BOM !in PREFIX_HTTP;
    MarksNone(PREFIX_HTTP);
  }

  lemma RedirectMarks(a: Assignment, prefix: string, kernel: string, left: seq<string>)
    requires Uses(a) <= |left|
    ensures Marks(Redirect(a, prefix, kernel, left).key) == Marks(a.key)
  {
    KeysNoMark();
    KindIs(a.key);
    hide Marks, KindOf, Uses, JoinModules, Normalize;
  }

  lemma {:induction false} RedirectedMarks(items: seq<Assignment>, prefix: string, kernel: string,
                                           left: seq<string>)
    requires |ModuleList(items)| <= |left|
    ensures KeyMarks(RedirectAll(items, prefix, kernel, left)) == KeyMarks(items)
    decreases |items|
  {
    if items != [] {
      var a, rest := items[0], items[1..];
      hide Redirect, ModulesOf, Uses, Marks;
      assert items == [a] + rest;
      ModuleCons(a, rest);
      RedirectMarks(a, prefix, kernel, left);
      RedirectedMarks(rest, prefix, kernel, left[Uses(a)..]);
      var b, later := Redirect(a, prefix, kernel, left), RedirectAll(rest, prefix, kernel, left[Uses(a)..]);
      assert ([b] + later)[1..] == later;
    }
  }

  /** The expected assignments have the marks of the source's in their keys. */
  lemma ExpectedMarks(items: seq<Assignment>, prefix: string, kernel: string, paths: seq<string>)
    requires |ModuleList(items)| <= |paths|
    ensures KeyMarks(Expected(items, prefix, kernel, paths)) == KeyMarks(items)
  {
    hide RedirectAll, AnyPrefixKey, Marks, ModuleList, KeyMarks, PREFIX, PREFIX_HTTP, KERNEL, KERNELOPT,
         MODULES, MODULE, KindOf, ModulesOf;
    KeysNoMark();
    var later := RedirectAll(items, prefix, kernel, paths);
    RedirectedMarks(items, prefix, kernel, paths);
    if AnyPrefixKey(items) {
      assert [] + later == later;
    } else {
      ItemsCons(Assignment(PREFIX, prefix), later);
    }
  }

  lemma ItemsCons(a: Assignment, rest: seq<Assignment>)
    ensures KeyMarks([a] + rest) == Marks(a.key) + KeyMarks(rest)
  {
    hide Marks;
    assert ([a] + rest)[1..] == rest;
  }

  // ---- How many paths the rewriter wants --------------------------------

  /** The modules the parser would find in this line without the marks in front of it. */
  function Wanted(line: string): seq<string> {
    var b := Bared(line);
    if LeftTrimmed(b) && Read(b).Some? then ModulesOf(Read(b).value) else []
  }

  function AllWanted(lines: seq<string>): seq<string> {
    if lines == [] then [] else Wanted(lines[0]) + AllWanted(lines[1..])
  }

  lemma BaredTrimmed(line: string)
    ensures LeftTrimmed(Bared(line)) ==> Strip(Bared(line)) == Bared(line) && Bared(Bared(line)) == Bared(line)
  {
    var s, b := Strip(line), Bared(line);
    TrimIsBare(IsSpace, line);
    assert b != "" ==> b[|b| - 1] == s[|s| - 1] && !IsBom(b[0]);
    if LeftTrimmed(b) {
      hide Trim;
      TrimBare(IsSpace, b);
      assert Strip(b) == b;
      EmptyAll(IsBom);
      assert "" + b == b;
      SpanOf(IsBom, "", b);
    }
  }

  /** What one line takes from the paths. */
  predicate Takes(o: Outcome, n: nat, left: seq<string>) {
    if n > |left| then o.Refused? else !o.Refused? && (if o.Written? then o.used == n else n == 0)
  }

  lemma LineTakes(line: string, prefix: string, kernel: string, left: seq<string>)
    ensures Takes(RewriteLine(line, prefix, kernel, left), |Wanted(line)|, left)
  {
    hide Bared, RewriteLine, Read, ModulesOf, LeftTrimmed, Strip;
    var b := Bared(line);
    BaredTrimmed(line);
    if LeftTrimmed(b) {
      TrimmedTakes(b, prefix, kernel, left);
      SameBared(line, b, prefix, kernel, left);
    } else {
      IndentedTakes(line, prefix, kernel, left);
    }
  }

  lemma SameBared(a: string, b: string, prefix: string, kernel: string, left: seq<string>)
    requires Bared(a) == Bared(b)
    ensures RewriteLine(a, prefix, kernel, left) == RewriteLine(b, prefix, kernel, left)
  {
    hide Bared, Matches, KeyOf, ValueOf, IsComment, Segments, Normalize, JoinModules;
  }

  lemma TrimmedTakes(b: string, prefix: string, kernel: string, left: seq<string>)
    requires Strip(b) == b && Bared(b) == b
    ensures Takes(RewriteLine(b, prefix, kernel, left), if Read(b).Some? then |ModulesOf(Read(b).value)| else 0, left)
  {
    hide Bared, RewriteLine, Read, ModulesOf, Strip, WrittenFor;
    RewriteReads(b, prefix, kernel, left);
  }

  lemma IndentedTakes(line: string, prefix: string, kernel: string, left: seq<string>)
    requires !LeftTrimmed(Bared(line))
    ensures Takes(RewriteLine(line, prefix, kernel, left), 0, left)
  {
    hide Bared, Matches, KeyOf, ValueOf, IsComment, Segments, Normalize, JoinModules, LeftTrimmed;
    IndentedNoMatch(Bared(line));
  }

  /** The rewriter's patterns match no line that starts with a space. */
  lemma IndentedNoMatch(b: string)
    requires !LeftTrimmed(b)
    ensures !Matches(PREFIX, b) && !Matches(PREFIX_HTTP, b) && !Matches(KERNEL, b) && !Matches(KERNELOPT, b)
    ensures !Matches(MODULES, b) && !Matches(MODULE, b)
  {
    assert IsSpace(b[0]) && LowerChar(b[0]) == b[0];
    assert PREFIX[0] == 'p' && PREFIX_HTTP[0] == 'p' && KERNEL[0] == 'k' && KERNELOPT[0] == 'k';
    assert MODULES[0] == 'm' && MODULE[0] == 'm';
    hide PREFIX, PREFIX_HTTP, KERNEL, KERNELOPT, MODULES, MODULE;
    FirstDiffers(PREFIX, b);
    FirstDiffers(PREFIX_HTTP, b);
    FirstDiffers(KERNEL, b);
    FirstDiffers(KERNELOPT, b);
    FirstDiffers(MODULES, b);
    FirstDiffers(MODULE, b);
  }

  lemma FirstDiffers(name: string, b: string)
    requires name != "" && b != "" && name[0] != LowerChar(b[0])
    ensures !Matches(name, b)
  {
  }

  lemma {:induction false} LinesTake(lines: seq<string>, prefix: string, kernel: string, left: seq<string>)
    ensures TakesPaths(|AllWanted(lines)|, left, RewriteLines(lines, prefix, kernel, left))
    decreases |lines|
  {
    hide RewriteLine, RewriteLines, Wanted, PutBefore;
    if lines == [] {
      NoOutput(prefix, kernel, left);
    } else {
      var line, rest := lines[0], lines[1..];
      assert lines == [line] + rest;
      RewriteCons(line, rest, prefix, kernel, left);
      LineTakes(line, prefix, kernel, left);
      var n := |Wanted(line)|;
      if n <= |left| {
        LinesTake(rest, prefix, kernel, left[n..]);
        assert n == 0 ==> left[n..] == left;
        TakesAfter(RewriteLine(line, prefix, kernel, left), n, |AllWanted(rest)|, rest, prefix, kernel, left);
      }
    }
  }

  lemma TakesAfter(o: Outcome, m: nat, n: nat, rest: seq<string>, prefix: string, kernel: string,
                   left: seq<string>)
    requires m <= |left| && Takes(o, m, left)
    requires TakesPaths(n, left[m..], RewriteLines(rest, prefix, kernel, left[m..]))
    ensures TakesPaths(m + n, left, Following(o, rest, prefix, kernel, left))
  {
    hide RewriteLines, PutBefore;
    if o.Written? {
      UsesStep(m, n, left, o.line, RewriteLines(rest, prefix, kernel, left[m..]));
    } else {
      assert left[m..] == left;
    }
  }

  /** For every boot.cfg: rewriting raises no error exactly when it is given as many paths as
      the parser finds modules in the lines without their marks; without marks on assigning
      lines these are the modules it found. */
  lemma RewriteIsOk(raw: string, httpPrefix: string, kernel: string, paths: seq<string>)
    ensures Rewrite(raw, httpPrefix, kernel, paths).Ok? <==> |AllWanted(SourceLines(raw))| == |paths|
    ensures BomFree(LogicalLines(raw)) ==> |AllWanted(SourceLines(raw))| == |ModuleList(Assignments(raw))|
  {
    hide Merged, BomFree, SplitLines, NoBreaks, ModuleList, RewriteLines, OutLines, SourceLines, ReadLines,
         AllWanted, LogicalLines, Assignments, FullPrefix;
    LinesTake(SourceLines(raw), FullPrefix(httpPrefix), kernel, paths);
    if BomFree(LogicalLines(raw)) {
      var found := ModuleList(Assignments(raw));
      MarkFreeIsOk(raw, httpPrefix, kernel, found);
      LinesTake(SourceLines(raw), FullPrefix(httpPrefix), kernel, found);
    }
  }

  /** Line i is the first that needs more paths than are left. */
  ghost predicate ShortAt(lines: seq<string>, count: nat, i: nat) {
    i < |lines| && |AllWanted(lines[..i])| <= count < |AllWanted(lines[..i + 1])|
  }

  lemma RefusedKind(line: string, prefix: string, kernel: string, left: seq<string>)
    ensures
      var o := RewriteLine(line, prefix, kernel, left);
      o.Refused? ==> o.error == if Matches(MODULES, Bared(line)) then ModulesMismatch else ModuleExtra
  {
    hide Bared, Matches, ValueOf, IsComment, Segments, Normalize, JoinModules;
  }

  lemma AllWantedCons(line: string, rest: seq<string>)
    ensures AllWanted([line] + rest) == Wanted(line) + AllWanted(rest)
  {
    hide Wanted;
    assert ([line] + rest)[1..] == rest;
  }

  lemma ShortLater(line: string, rest: seq<string>, count: nat, i: nat)
    requires |Wanted(line)| <= count && ShortAt(rest, count - |Wanted(line)|, i)
    ensures ShortAt([line] + rest, count, i + 1)
  {
    hide Wanted, AllWanted;
    var all := [line] + rest;
    assert all[..i + 1] == [line] + rest[..i] && all[..i + 2] == [line] + rest[..i + 1];
    AllWantedCons(line, rest[..i]);
    AllWantedCons(line, rest[..i + 1]);
  }

  lemma ShortFirst(line: string, rest: seq<string>, count: nat)
    requires |Wanted(line)| > count
    ensures ShortAt([line] + rest, count, 0)
  {
    hide Wanted;
    var all := [line] + rest;
    assert all[..0] == [] && all[..1] == [line] + [];
    AllWantedCons(line, []);
    assert AllWanted([]) == [];
  }

  /** The kind of line decides the error. */
  predicate ErrorOf(line: string, error: RewriteError) {
    error == if Matches(MODULES, Bared(line)) then ModulesMismatch else ModuleExtra
  }

  lemma {:induction false} LinesRefuse(lines: seq<string>, prefix: string, kernel: string, left: seq<string>)
    requires RewriteLines(lines, prefix, kernel, left).Err?
    ensures exists i: nat :: i < |lines| && ShortAt(lines, |left|, i) &&
                             ErrorOf(lines[i], RewriteLines(lines, prefix, kernel, left).error)
    decreases |lines|
  {
    hide RewriteLine, Wanted, AllWanted, PutBefore, Matches, Bared, ErrorOf, ShortAt;
    var line, rest := lines[0], lines[1..];
    assert lines == [line] + rest;
    RewriteCons(line, rest, prefix, kernel, left);
    LineTakes(line, prefix, kernel, left);
    var o, n := RewriteLine(line, prefix, kernel, left), |Wanted(line)|;
    hide RewriteLines;
    if o.Refused? {
      RefusedHere(line, rest, prefix, kernel, left);
    } else {
      FollowingFails(o, rest, prefix, kernel, left);
      var later := if o.Written? then left[o.used..] else left;
      LinesRefuse(rest, prefix, kernel, later);
      var i: nat :| i < |rest| && ShortAt(rest, |later|, i)
                    && ErrorOf(rest[i], RewriteLines(rest, prefix, kernel, later).error);
      ShortLater(line, rest, |left|, i);
      assert lines[i + 1] == rest[i];
    }
  }

  lemma RefusedHere(line: string, rest: seq<string>, prefix: string, kernel: string, left: seq<string>)
    requires RewriteLine(line, prefix, kernel, left).Refused?
    ensures ShortAt([line] + rest, |left|, 0)
    ensures ErrorOf(line, RewriteLine(line, prefix, kernel, left).error) && ([line] + rest)[0] == line
  {
    hide RewriteLine, Wanted, AllWanted, Matches, Bared, ShortAt;
    LineTakes(line, prefix, kernel, left);
    RefusedKind(line, prefix, kernel, left);
    ShortFirst(line, rest, |left|);
  }

  lemma FollowingFails(o: Outcome, rest: seq<string>, prefix: string, kernel: string, left: seq<string>)
    requires o.Written? ==> o.used <= |left|
    requires !o.Refused? && Following(o, rest, prefix, kernel, left).Err?
    ensures
      var r := RewriteLines(rest, prefix, kernel, if o.Written? then left[o.used..] else left);
      r == Following(o, rest, prefix, kernel, left)
  {
    hide RewriteLines;
  }

  /** Which error: paths left over at the end, or the first line for which too few are left; and
      then it depends on whether that line lists modules or names one. */
  lemma RewriteErrors(raw: string, httpPrefix: string, kernel: string, paths: seq<string>)
    ensures
      var r, lines := Rewrite(raw, httpPrefix, kernel, paths), SourceLines(raw);
      && (r == Err(Unreferenced) <==> |AllWanted(lines)| < |paths|)
      && (r.Err? && r.error != Unreferenced ==>
            exists i: nat :: i < |lines| && ShortAt(lines, |paths|, i) && ErrorOf(lines[i], r.error))
  {
    hide RewriteLines, OutLines, SourceLines, AllWanted, FullPrefix, ErrorOf, ShortAt;
    var lines, prefix := SourceLines(raw), FullPrefix(httpPrefix);
    LinesTake(lines, prefix, kernel, paths);
    if RewriteLines(lines, prefix, kernel, paths).Err? {
      LinesRefuse(lines, prefix, kernel, paths);
      RefusedNotLeft(lines, prefix, kernel, paths);
    }
  }

  lemma RefusedNotLeft(lines: seq<string>, prefix: string, kernel: string, paths: seq<string>)
    requires RewriteLines(lines, prefix, kernel, paths).Err?
    ensures RewriteLines(lines, prefix, kernel, paths).error != Unreferenced
  {
    hide RewriteLines, Matches, Bared, ShortAt;
    LinesRefuse(lines, prefix, kernel, paths);
    var i: nat :| i < |lines| && ShortAt(lines, |paths|, i)
                  && ErrorOf(lines[i], RewriteLines(lines, prefix, kernel, paths).error);
  }

  // ---- The exact condition ----------------------------------------------

  /** The lines of the rewritten file behind the header are single lines. */
  lemma {:induction false} LinesOneLine(lines: seq<string>, prefix: string, kernel: string, left: seq<string>)
    requires NoBreaks(lines) && IsHttpPrefix(prefix) && IsPath(kernel) && ArePaths(left)
    requires RewriteLines(lines, prefix, kernel, left).Ok?
    ensures NoBreaks(RewriteLines(lines, prefix, kernel, left).value.out)
    decreases |lines|
  {
    hide RewriteLine, RewriteLines, NoBreaks, All, IsHttpPrefix, IsPath, ArePaths;
    if lines == [] {
      NoOutput(prefix, kernel, left);
    } else {
      var line, rest := lines[0], lines[1..];
      assert lines == [line] + rest;
      FirstOneLine(lines);
      RewriteCons(line, rest, prefix, kernel, left);
      var o := RewriteLine(line, prefix, kernel, left);
      var n := if o.Written? then o.used else 0;
      assert left[0..] == left;
      PathsPrefix(left, n);
      LinesOneLine(rest, prefix, kernel, left[n..]);
      if o.Written? {
        WrittenOneLine(line, prefix, kernel, left);
        NoBreaksCons(o.line, RewriteLines(rest, prefix, kernel, left[n..]).value.out);
      }
    }
  }

  lemma NoOutput(prefix: string, kernel: string, left: seq<string>)
    ensures RewriteLines([], prefix, kernel, left) == Ok(Pass([], left)) && NoBreaks([])
  {
  }

  lemma WrittenOneLine(line: string, prefix: string, kernel: string, left: seq<string>)
    requires OneLine(line) && IsHttpPrefix(prefix) && IsPath(kernel) && ArePaths(left)
    ensures
      var r := RewriteLine(line, prefix, kernel, left);
      r.Written? ==> OneLine(r.line)
  {
    hide Bared, Matches, IsComment, Segments, Normalize, ValueOf, JoinModules, OneLine, IsPath, ArePaths,
         IsHttpPrefix;
    BaredOneLine(line);
    WrittenValues(ValueOf(Bared(line)), prefix, kernel, left);
  }

  lemma WrittenValues(value: string, prefix: string, kernel: string, left: seq<string>)
    requires IsHttpPrefix(prefix) && IsPath(kernel) && ArePaths(left)
    ensures OneLine("prefix=" + prefix) && OneLine("kernel=" + kernel) && OneLine("kernelopt=" + Normalize(value))
    ensures |Segments(value)| <= |left| ==> OneLine("modules=" + JoinModules(left[..|Segments(value)|]))
    ensures left != [] ==> OneLine("module=" + left[0])
  {
    KeysOneLine();
    OptionOneLine(value);
    hide Segments, Normalize, JoinModules, All, IsClean, ArePaths, Trimmed, IsContinued;
    AllConcat(NotBreak, "prefix=", prefix);
    AllConcat(NotBreak, "kernel=", kernel);
    var n := |Segments(value)|;
    if n <= |left| {
      PathsPrefix(left, n);
      PathsJoin(left[..n]);
      AllConcat(NotBreak, "modules=", JoinModules(left[..n]));
    }
    if left != [] {
      FirstPath(left);
      AllConcat(NotBreak, "module=", left[0]);
    }
  }

  /** A file with a mark on an assigning line never reads back as expected. */
  lemma MarkedDiffers(raw: string, httpPrefix: string, kernel: string, paths: seq<string>)
    requires !BomFree(LogicalLines(raw)) && |ModuleList(Assignments(raw))| <= |paths|
    requires IsHttpPrefix(FullPrefix(httpPrefix)) && IsPath(kernel) && ArePaths(paths)
    requires Rewrite(raw, httpPrefix, kernel, paths).Ok?
    ensures Assignments(Rewrite(raw, httpPrefix, kernel, paths).value) !=
            Expected(Assignments(raw), FullPrefix(httpPrefix), kernel, paths)
  {
    var prefix, lines := FullPrefix(httpPrefix), SourceLines(raw);
    hide Merged, BomFree, SplitLines, NoBreaks, ModuleList, RewriteLines, ReadLines, IsPath, ArePaths, AllAssign,
         IsHttpPrefix, FullPrefix, Expected, HEADER, Unlines, KeyMarks, TotalMarks, AnyWritesPrefix, LineMarks;
    var out := RewriteLines(lines, prefix, kernel, paths).value.out;
    SourceMarks(raw);
    LinesMarks(lines, prefix, kernel, paths);
    LinesOneLine(lines, prefix, kernel, paths);
    var body := WithPrefix(raw, prefix, out);
    FileMarks(body);
    ExpectedMarks(Assignments(raw), prefix, kernel, paths);
  }

  lemma WithPrefix(raw: string, prefix: string, out: seq<string>) returns (body: seq<string>)
    requires NoBreaks(out) && AllAssign(out) && IsHttpPrefix(prefix)
    ensures OutLines(raw, prefix, out) == [HEADER] + body
    ensures NoBreaks(body) && AllAssign(body) && TotalMarks(body) == TotalMarks(out)
  {
    var line := "prefix=" + prefix;
    KeysOneLine();
    KeyNames();
    AllConcat(NotBreak, "prefix=", prefix);
    hide HEADER, AnyWritesPrefix, SourceLines, NoBreaks, AllAssign, TotalMarks, All, LineMarks;
    NamedMarks("prefix", prefix);
    NoBreaksCons(line, out);
    AssignCons(line, out);
    body := if AnyWritesPrefix(SourceLines(raw)) then out else [line] + out;
    Assoc([HEADER], [line], out);
    assert [HEADER] + [] == [HEADER];
  }

  /** Rewriting and reading back, for every boot.cfg and as many clean paths as the parser found
      modules in it: the rewriter succeeds and the parser reads exactly the redirected
      assignments out of its result, if and only if no line that assigns something starts with
      a byte order mark and no rewritten line ends in a backslash. */
  lemma RewriteReadsBack(raw: string, httpPrefix: string, kernel: string, paths: seq<string>)
    requires |ModuleList(Assignments(raw))| == |paths|
    requires IsHttpPrefix(FullPrefix(httpPrefix)) && IsPath(kernel) && ArePaths(paths)
    ensures
      var r := Rewrite(raw, httpPrefix, kernel, paths);
      (r.Ok? &&
       Assignments(r.value) == Expected(Assignments(raw), FullPrefix(httpPrefix), kernel, paths))
      <==> BomFree(LogicalLines(raw)) && NoneContinues(LogicalLines(raw))
  {
    hide Rewrite, BomFree, ModuleList, Assignments, IsPath, ArePaths, IsHttpPrefix, FullPrefix, NoneContinues,
         Expected, LogicalLines;
    if BomFree(LogicalLines(raw)) {
      MarkFreeReadsBack(raw, httpPrefix, kernel, paths);
    } else if Rewrite(raw, httpPrefix, kernel, paths).Ok? {
      MarkedDiffers(raw, httpPrefix, kernel, paths);
    }
  }

  // ---- A trailing backslash ---------------------------------------------

  /** A line with a backslash before its last space. */
  const LOOSE_END := "x=a" + "\\" + " "

  lemma LooseEndLine()
    ensures OneLine(LOOSE_END) && !IsContinued(LOOSE_END) && Strip(LOOSE_END) == "x=a\\"
    ensures Read(LOOSE_END) == Some(Assignment("x", "a\\"))
  {
    var s := "x=a\\";
    LooseEndStrip();
    LooseEndCut();
    assert s[0] == 'x' && s[1] == '=';
    hide Strip, KeyOf, ValueOf, All;
  }

  lemma LooseEndStrip()
    ensures OneLine(LOOSE_END) && !IsContinued(LOOSE_END) && Strip(LOOSE_END) == "x=a\\"
  {
    var s := "x=a\\";
    assert LOOSE_END == "" + s + " " && All(IsSpace, " ") && All(IsSpace, "");
    assert OneLine(LOOSE_END) && !IsContinued(LOOSE_END) && Bare(IsSpace, s);
    hide All, LOOSE_END;
    TrimPadded(IsSpace, "", s, " ");
  }

  lemma LooseEndCut()
    ensures KeyOf("x=a\\") == "x" && ValueOf("x=a\\") == "a\\"
  {
    assert "x=a\\" == "x" + ("=" + "a\\") && All(NotEquals, "x");
    assert Lower("x") == "x";
    TrimBare(IsSpace, "x");
    TrimBare(IsSpace, "a\\");
    hide All, Strip, Lower, KeyOf, ValueOf;
    ReadCut("x", "a\\");
  }

  lemma PlainX()
    ensures KindOf("x") == PlainKey
  {
    assert |PREFIX| == 6 && |PREFIX_HTTP| == 11 && |KERNEL| == 6 && |KERNELOPT| == 9;
    assert |MODULES| == 7 && |MODULE| == 6;
  }

  /** A boot.cfg of this one line, which has no mark and is no continuation: stripped of its last
      space it becomes one, and the parser reads another value back. */
  lemma LooseEndDiffers(httpPrefix: string, kernel: string)
    requires IsHttpPrefix(FullPrefix(httpPrefix)) && IsPath(kernel)
    ensures
      var raw := Unlines([LOOSE_END]);
      && Assignments(raw) == [Assignment("x", "a\\")] && ModuleList(Assignments(raw)) == []
      && var r := Rewrite(raw, httpPrefix, kernel, []);
         r.Ok? && Assignments(r.value) != Expected(Assignments(raw), FullPrefix(httpPrefix), kernel, [])
  {
    var raw := Unlines([LOOSE_END]);
    LooseEndLine();
    PlainX();
    hide LOOSE_END, Read, All, Merged, Unlines, SplitLines, IsPath, IsHttpPrefix, FullPrefix, Rewrite, Strip,
         KindOf, NoBreaks;
    OneMerged(LOOSE_END);
    ReadOne(LOOSE_END);
    LooseEndItems();
    var lines := LogicalLines(raw);
    assert lines == [LOOSE_END] && lines[0] == LOOSE_END;
    LooseEndFree(lines);
    MarkFreeReadsBack(raw, httpPrefix, kernel, []);
  }

  lemma LooseEndItems()
    requires KindOf("x") == PlainKey
    ensures ModuleList([Assignment("x", "a\\")]) == []
  {
    hide KindOf;
    assert [Assignment("x", "a\\")][1..] == [];
  }

  lemma LooseEndFree(lines: seq<string>)
    requires lines == [LOOSE_END] && KindOf("x") == PlainKey
    ensures BomFree(lines) && !NoneContinues(lines)
  {
    LooseEndLine();
    assert "x=a\\"[0] == 'x' && IsContinued("x=a\\");
    hide LOOSE_END, Read, Strip, KindOf;
    assert Continues(lines[0]);
  }
}
