/** Reading back a boot.cfg that was written line by line: every line gives its own
    assignment exactly when no line ends in a backslash. */
module ReadBack {
  import opened Text
  import opened ConfigLine
  import opened BootCfg

  // ---- The pieces of a written file -------------------------------------

  lemma {:induction false} NoCrLfPlain(s: string)
    requires forall i :: 0 <= i < |s| ==> s[i] != '\r'
    ensures NoCrLf(s) == s
  {
    if s != "" {
      NoCrLfPlain(s[1..]);
      assert s == [s[0]] + s[1..];
    }
  }

  lemma OneLineNewline(line: string)
    requires All(NotBreak, line)
    ensures All(NotNewline, line) && TrimRight(IsCr, line) == line
  {
    assert forall i :: 0 <= i < |line| ==> NotBreak(line[i]);
    assert All(IsCr, "");
    assert line + "" == line;
    KeptOf(IsCr, line, "");
  }

  lemma {:induction false} UnlinesNoCr(lines: seq<string>)
    requires NoBreaks(lines)
    ensures forall i :: 0 <= i < |Unlines(lines)| ==> Unlines(lines)[i] != '\r'
  {
    if |lines| > 1 {
      assert All(NotBreak, lines[0]) && NoBreaks(lines[1..]);
      UnlinesNoCr(lines[1..]);
      assert forall i :: 0 <= i < |lines[0]| ==> NotBreak(lines[0][i]);
      assert Unlines(lines) == lines[0] + "\n" + Unlines(lines[1..]);
    } else if |lines| == 1 {
      assert All(NotBreak, lines[0]);
      assert forall i :: 0 <= i < |lines[0]| ==> NotBreak(lines[0][i]);
    }
  }

  lemma PieceHead(line: string, rest: string)
    requires All(NotNewline, line)
    ensures SplitNewline(line + ("\n" + rest)) == [line] + SplitNewline(rest)
  {
    hide All;
    var t := line + ("\n" + rest);
    SpanOf(NotNewline, line, "\n" + rest);
    assert t[..|line|] == line && t[|line| + 1..] == rest;
  }

  lemma {:induction false} PiecesOfFile(lines: seq<string>)
    requires NoBreaks(lines) && lines != []
    ensures SplitNewline(Unlines(lines)) == lines + [""]
  {
    assert All(NotBreak, lines[0]) && NoBreaks(lines[1..]);
    OneLineNewline(lines[0]);
    hide All, NoBreaks, SplitNewline;
    if |lines| == 1 {
      assert Unlines(lines) == lines[0] + ("\n" + "");
      PieceHead(lines[0], "");
      LastPiece();
      assert lines == [lines[0]];
    } else {
      var rest := Unlines(lines[1..]);
      assert Unlines(lines) == lines[0] + ("\n" + rest);
      PieceHead(lines[0], rest);
      PiecesOfFile(lines[1..]);
      assert [lines[0]] + (lines[1..] + [""]) == lines + [""];
    }
  }

  lemma LastPiece()
    ensures SplitNewline("") == [""]
  {
  }

  lemma MergedFile(lines: seq<string>)
    requires NoBreaks(lines) && lines != []
    ensures Merged(Unlines(lines)) == Join("\n", MergePieces(lines + [""], ""))
  {
    UnlinesNoCr(lines);
    hide NoBreaks, MergePieces, SplitNewline;
    NoCrLfPlain(Unlines(lines));
    PiecesOfFile(lines);
  }

  lemma ContinuedOneLine(s: string)
    requires All(NotBreak, s) && IsContinued(s)
    ensures All(NotBreak, Continued(s))
  {
    var n := |s| - 1;
    AllConcat(NotBreak, s[..n], s[n..]);
    assert s[..n] + s[n..] == s;
    var k := Kept(IsSpace, s[..n]);
    assert s[..n][..k] + s[..n][k..] == s[..n];
    AllConcat(NotBreak, s[..n][..k], s[..n][k..]);
  }

  lemma {:induction false} MergedNoBreaks(pieces: seq<string>, buf: string)
    requires NoBreaks(pieces) && All(NotBreak, buf)
    ensures NoBreaks(MergePieces(pieces, buf))
    decreases |pieces|
  {
    if pieces != [] {
      assert All(NotBreak, pieces[0]) && NoBreaks(pieces[1..]);
      OneLineNewline(pieces[0]);
      EmptyOneLine();
      var s := pieces[0];
      hide All, Continued;
      if IsContinued(s) {
        ContinuedOneLine(s);
        AllConcat(NotBreak, buf, Continued(s));
        MergedNoBreaks(pieces[1..], buf + Continued(s));
      } else {
        AllConcat(NotBreak, buf, s);
        MergedNoBreaks(pieces[1..], "");
      }
    }
  }

  lemma EmptyOneLine()
    ensures All(NotBreak, "")
  {
  }

  lemma {:induction false} ReadConcat(a: seq<string>, b: seq<string>)
    ensures ReadLines(a + b) == ReadLines(a) + ReadLines(b)
  {
    hide Read;
    if a == [] {
      assert a + b == b && ReadLines(a) == [];
      assert [] + ReadLines(b) == ReadLines(b);
    } else {
      var line, rest := a[0], a[1..];
      assert a == [line] + rest;
      Assoc([line], rest, b);
      hide ReadLines;
      ReadConcat(rest, b);
      ReadCons(line, rest + b);
      ReadCons(line, rest);
      Assoc(if Read(line).Some? then [Read(line).value] else [], ReadLines(rest), ReadLines(b));
    }
  }

  lemma EmptyReads()
    ensures Read("") == None && ReadLines([""]) == []
  {
    assert [""][1..] == [];
  }

  /** A joined list of lines reads like the list, the final line break or not. */
  lemma ReadJoined(lines: seq<string>)
    requires NoBreaks(lines)
    ensures ReadLines(SplitLines(Join("\n", lines))) == ReadLines(lines)
  {
    if lines == [] {
    } else {
      var front, last := lines[..|lines| - 1], lines[|lines| - 1];
      assert lines == front + [last];
      assert NoBreaks(front) && All(NotBreak, last);
      EmptyReads();
      if last != "" {
        JoinedLines(lines);
      } else if front == [] {
        assert Join("\n", lines) == "";
      } else {
        hide Read, NoBreaks, All, SplitLines;
        JoinAppend("\n", front, "");
        assert Join("\n", front) + "\n" + "" == Unlines(front);
        SplitUnlines(front);
        ReadConcat(front, [""]);
        assert ReadLines(front) + [] == ReadLines(front);
      }
    }
  }

  lemma {:induction false} JoinedLines(lines: seq<string>)
    requires NoBreaks(lines) && lines != [] && lines[|lines| - 1] != ""
    ensures SplitLines(Join("\n", lines)) == lines
  {
    assert All(NotBreak, lines[0]) && NoBreaks(lines[1..]);
    if |lines| == 1 {
      LastLine(lines[0]);
    } else {
      hide All, NoBreaks, SplitLines;
      JoinedLines(lines[1..]);
      SplitHead(lines[0], Join("\n", lines[1..]));
    }
  }

  lemma LastLine(line: string)
    requires All(NotBreak, line) && line != ""
    ensures SplitLines(line) == [line]
  {
    assert line + "" == line;
    hide All;
    SpanOf(NotBreak, line, "");
  }

  /** The assignments of a written file. */
  lemma WrittenAssignments(lines: seq<string>)
    requires NoBreaks(lines) && lines != []
    ensures Assignments(Unlines(lines)) == ReadLines(MergePieces(lines + [""], ""))
  {
    EmptyOneLine();
    hide All, Read, Merged, Unlines;
    MergedFile(lines);
    assert NoBreaks(lines + [""]);
    MergedNoBreaks(lines + [""], "");
    ReadJoined(MergePieces(lines + [""], ""));
  }

  // ---- Trailing backslashes ---------------------------------------------

  /** A line that assigns something and has no outer space. */
  predicate IsNeat(line: string) { Trimmed(line) && Read(line).Some? && All(NotBreak, line) }

  predicate AreNeat(lines: seq<string>) {
    forall i :: 0 <= i < |lines| ==> IsNeat(lines[i])
  }

  predicate NoneContinued(lines: seq<string>) {
    forall i :: 0 <= i < |lines| ==> !IsContinued(lines[i])
  }

  /** One step of the merge. */
  lemma MergeStep(line: string, rest: seq<string>, buf: string)
    requires All(NotBreak, line)
    ensures MergePieces([line] + rest, buf) ==
            if IsContinued(line) then MergePieces(rest, buf + Continued(line))
            else [buf + line] + MergePieces(rest, "")
  {
    OneLineNewline(line);
    hide All;
    assert ([line] + rest)[1..] == rest;
  }

  lemma MergeLast(buf: string)
    ensures MergePieces([""], buf) == [buf]
  {
    OneLineNewline("");
    assert [""][1..] == [];
    assert buf + "" == buf;
  }

  lemma {:induction false} NoneMerged(lines: seq<string>)
    requires NoBreaks(lines) && NoneContinued(lines)
    ensures MergePieces(lines + [""], "") == lines + [""]
  {
    if lines == [] {
      MergeLast("");
      assert lines + [""] == [""];
    } else {
      var line, rest := lines[0], lines[1..];
      assert All(NotBreak, line) && !IsContinued(line);
      assert NoBreaks(rest) && NoneContinued(rest);
      hide All, IsContinued, NoBreaks, NoneContinued, MergePieces;
      NoneMerged(rest);
      assert lines == [line] + rest;
      Assoc([line], rest, [""]);
      MergeStep(line, rest + [""], "");
      assert "" + line == line;
    }
  }

  /** Merging never gives more assignments than there are lines. */
  lemma {:induction false} MergedCount(lines: seq<string>, buf: string)
    requires AreNeat(lines) && (lines == [] ==> buf == "")
    ensures |ReadLines(MergePieces(lines + [""], buf))| <= |lines|
    decreases |lines|
  {
    hide Read, All, Continued, Trimmed;
    if lines == [] {
      assert lines + [""] == [""];
      MergeLast(buf);
      EmptyReads();
    } else {
      assert IsNeat(lines[0]) && AreNeat(lines[1..]);
      var line, rest := lines[0], lines[1..];
      hide IsNeat, AreNeat, MergePieces;
      assert lines + [""] == [line] + (rest + [""]);
      NeatOneLine(line);
      MergeStep(line, rest + [""], buf);
      if IsContinued(line) {
        if rest == [] {
          assert rest + [""] == [""];
          MergeLast(buf + Continued(line));
          OneRead(buf + Continued(line));
        } else {
          MergedCount(rest, buf + Continued(line));
        }
      } else {
        MergedCount(rest, "");
        ReadCons(buf + line, MergePieces(rest + [""], ""));
      }
    }
  }

  lemma NeatOneLine(line: string)
    requires IsNeat(line)
    ensures All(NotBreak, line)
  {
  }

  lemma OneRead(line: string)
    ensures |ReadLines([line])| <= 1
    ensures ReadLines([line]) == if Read(line).Some? then [Read(line).value] else []
  {
    hide Read;
    assert [line][1..] == [];
  }

  lemma ReadCons(line: string, rest: seq<string>)
    ensures ReadLines([line] + rest) ==
            (if Read(line).Some? then [Read(line).value] else []) + ReadLines(rest)
  {
    hide Read;
    assert ([line] + rest)[1..] == rest;
  }

  /** A single continued line comes back without its backslash. */
  lemma ContinuedDiffers(line: string)
    requires IsNeat(line) && IsContinued(line)
    ensures Read(Continued(line)) != Read(line)
  {
    if Read(Continued(line)).Some? {
      var head := line[..|line| - 1];
      TrimBare(IsSpace, line);
      StripRightTrimmedHead(head);
      ValueShorter(line);
      var k := Kept(IsSpace, head);
      hide IsComment, Trim, All, ValueOf, KeyOf;
      StripValue(Continued(line));
      assert Read(line).value.value == ValueOf(line);
    }
  }

  lemma StripRightTrimmedHead(head: string)
    ensures Strip(TrimRight(IsSpace, head)) == Strip(head)
  {
    var k := Kept(IsSpace, head);
    assert head == head[..k] + head[k..];
    hide All, Trim;
    StripRight(head[..k], head[k..]);
  }

  /** The value read from a padded line. */
  lemma StripValue(line: string)
    requires '=' in line
    ensures ValueOf(Strip(line)) == ValueOf(line)
  {
    var a, b := TrimSplit(IsSpace, line);
    hide All, Trim, ValueOf, KeyOf;
    var s := Strip(line);
    if '=' in s { ReadPadded(a, s, b); } else { PaddedNoEquals(a, s, b); }
  }

  /** A last character that is not a space is kept. */
  lemma StripSnoc(r: string, c: char)
    requires !IsSpace(c)
    ensures Strip(r + [c]) == TrimLeft(IsSpace, r) + [c]
  {
    var n := Span(IsSpace, r);
    var m := r[n..] + [c];
    assert All(IsSpace, "");
    hide All, IsSpace;
    assert r + [c] == r[..n] + m;
    SpanOf(IsSpace, r[..n], m);
    assert (r + [c])[n..] == m;
    assert m + "" == m && m[|m| - 1] == c;
    KeptOf(IsSpace, m, "");
  }

  lemma ValueShorterCut(head: string, r: string, c: char)
    requires All(NotEquals, head) && !IsSpace(c)
    ensures |ValueOf(TrimRight(IsSpace, head + ("=" + r)))| < |ValueOf(head + ("=" + (r + [c])))|
  {
    hide IsSpace, All, Trim, Strip, KeyOf, ValueOf;
    EqualsIn(head, r);
    TrimmedValue(head + ("=" + r));
    ReadCut(head, r);
    ReadCut(head, r + [c]);
    StripSnoc(r, c);
    StripNoLonger(r);
  }

  lemma EqualsPlace(line: string) returns (n: nat)
    requires '=' in line && IsContinued(line)
    ensures n + 1 < |line| && line[n] == '=' && All(NotEquals, line[..n])
  {
    HasEquals(line);
    n := Span(NotEquals, line);
    assert line[n] == '=' && line[|line| - 1] != '=';
  }

  /** A continued line cut at its equals sign and before its backslash. */
  lemma CutLast(line: string) returns (head: string, r: string, c: char)
    requires '=' in line && IsContinued(line)
    ensures line == head + ("=" + (r + [c])) && line[..|line| - 1] == head + ("=" + r)
    ensures All(NotEquals, head) && !IsSpace(c)
  {
    hide All, IsSpace, IsContinued;
    var n := EqualsPlace(line);
    BackslashNoSpace(line);
    c := line[|line| - 1];
    head, r := CutInner(line, n);
  }

  lemma CutInner(line: string, n: nat) returns (head: string, r: string)
    requires n + 1 < |line| && line[n] == '='
    ensures head == line[..n]
    ensures line == head + ("=" + (r + [line[|line| - 1]])) && line[..|line| - 1] == head + ("=" + r)
  {
    var front, c := line[..|line| - 1], line[|line| - 1];
    head, r := line[..n], front[n + 1..];
    assert front == head + ("=" + r);
    Parted(line, |line| - 1);
    assert line[|line| - 1..] == [c];
    Regrouped(head, r, c);
  }

  lemma Regrouped(head: string, r: string, c: char)
    ensures (head + ("=" + r)) + [c] == head + ("=" + (r + [c]))
  {
  }

  lemma ValueShorter(line: string)
    requires IsContinued(line) && '=' in line
    ensures |ValueOf(Continued(line))| < |ValueOf(line)|
  {
    hide IsSpace, All, TrimRight, ValueOf;
    var head, r, c := CutLast(line);
    ValueShorterCut(head, r, c);
  }

  lemma BackslashNoSpace(line: string)
    requires IsContinued(line)
    ensures line[|line| - 1] == '\\' && !IsSpace('\\')
  {
  }

  lemma StripNoLonger(r: string)
    ensures |Strip(r)| <= |TrimLeft(IsSpace, r)|
  {
  }

  /** Cutting trailing space off a line leaves its value. */
  lemma TrimmedValue(x: string)
    requires '=' in x
    ensures ValueOf(TrimRight(IsSpace, x)) == ValueOf(x)
  {
    var k := Kept(IsSpace, x);
    EmptyAll(IsSpace);
    hide All, IsSpace, ValueOf, KeyOf;
    assert x == "" + x[..k] + x[k..];
    if '=' in x[..k] { ReadPadded("", x[..k], x[k..]); } else { PaddedNoEquals("", x[..k], x[k..]); }
  }

  /** The written lines read back one by one exactly when none ends in a backslash. */
  lemma {:induction false} ReadBackLines(lines: seq<string>)
    requires AreNeat(lines)
    ensures ReadLines(MergePieces(lines + [""], "")) == ReadLines(lines) <==> NoneContinued(lines)
  {
    if NoneContinued(lines) {
      hide Read, Trimmed, All;
      NeatNoBreaks(lines);
      NoneMerged(lines);
      EmptyReads();
      ReadConcat(lines, [""]);
      assert ReadLines(lines) + [] == ReadLines(lines);
    } else {
      ContinuedLoses(lines);
    }
  }

  lemma NeatNoBreaks(lines: seq<string>)
    requires AreNeat(lines)
    ensures NoBreaks(lines)
  {
    hide All, Read, Trimmed;
    forall i | 0 <= i < |lines| ensures All(NotBreak, lines[i]) { assert IsNeat(lines[i]); }
  }

  lemma {:induction false} NeatCount(lines: seq<string>)
    requires AreNeat(lines)
    ensures |ReadLines(lines)| == |lines|
  {
    if lines != [] {
      assert IsNeat(lines[0]) && AreNeat(lines[1..]);
      hide Read, Trimmed, All, AreNeat;
      NeatCount(lines[1..]);
    }
  }

  lemma LosesLater(line: string, rest: seq<string>)
    requires IsNeat(line) && !IsContinued(line)
    requires ReadLines(MergePieces(rest + [""], "")) != ReadLines(rest)
    ensures ReadLines(MergePieces([line] + rest + [""], "")) != ReadLines([line] + rest)
  {
    assert Read(line).Some?;
    hide IsNeat, IsContinued, MergePieces, Read, All, ReadLines, Continued;
    NeatOneLine(line);
    Assoc([line], rest, [""]);
    MergeStep(line, rest + [""], "");
    assert "" + line == line;
    ReadCons(line, MergePieces(rest + [""], ""));
    ReadCons(line, rest);
    var one := [Read(line).value];
    assert (one + ReadLines(rest))[1..] == ReadLines(rest);
    assert (one + ReadLines(MergePieces(rest + [""], "")))[1..] ==
           ReadLines(MergePieces(rest + [""], ""));
  }

  lemma LosesLast(line: string)
    requires IsNeat(line) && IsContinued(line)
    ensures ReadLines(MergePieces([line] + [""], "")) != ReadLines([line])
  {
    assert Read(line).Some?;
    hide IsNeat, IsContinued, MergePieces, Read, All, ReadLines, Continued;
    NeatOneLine(line);
    MergeStep(line, [""], "");
    assert "" + Continued(line) == Continued(line);
    MergeLast(Continued(line));
    OneRead(Continued(line));
    OneRead(line);
    ContinuedDiffers(line);
    if Read(Continued(line)).Some? {
      assert [Read(Continued(line)).value][0] != [Read(line).value][0];
    }
  }

  lemma LosesNow(line: string, rest: seq<string>)
    requires IsNeat(line) && IsContinued(line) && AreNeat(rest) && rest != []
    ensures ReadLines(MergePieces([line] + rest + [""], "")) != ReadLines([line] + rest)
  {
    assert Read(line).Some?;
    hide IsNeat, IsContinued, MergePieces, Read, All, ReadLines, Continued, AreNeat;
    NeatOneLine(line);
    Assoc([line], rest, [""]);
    MergeStep(line, rest + [""], "");
    MergedCount(rest, "" + Continued(line));
    ReadCons(line, rest);
    NeatCount(rest);
  }

  lemma FirstContinued(lines: seq<string>)
    requires !NoneContinued(lines)
    ensures lines != [] && lines == [lines[0]] + lines[1..]
    ensures IsContinued(lines[0]) || !NoneContinued(lines[1..])
  {
    hide IsContinued;
    if NoneContinued(lines[1..]) {
      assert forall i :: 1 <= i < |lines| ==> lines[i] == lines[1..][i - 1];
    }
  }

  lemma {:induction false} ContinuedLoses(lines: seq<string>)
    requires AreNeat(lines) && !NoneContinued(lines)
    ensures ReadLines(MergePieces(lines + [""], "")) != ReadLines(lines)
  {
    FirstContinued(lines);
    assert IsNeat(lines[0]) && AreNeat(lines[1..]);
    hide IsNeat, AreNeat, NoneContinued, IsContinued, MergePieces, Read, ReadLines;
    if !IsContinued(lines[0]) {
      ContinuedLoses(lines[1..]);
      LosesLater(lines[0], lines[1..]);
    } else if lines[1..] == [] {
      LosesLast(lines[0]);
      assert lines == [lines[0]];
    } else {
      LosesNow(lines[0], lines[1..]);
    }
  }
}
