/** Lists of lines: line by line rewriting, and the trailing white space that
    `"\n".join(lines).rstrip()` drops. */
module Lines {
  import opened Text

  function MapLines(f: string -> string, lines: seq<string>): (r: seq<string>)
    ensures |r| == |lines| && forall i :: 0 <= i < |lines| ==> r[i] == f(lines[i])
  {
    seq(|lines|, i requires 0 <= i < |lines| => f(lines[i]))
  }

  function RightTrimmed(line: string): string { TrimRight(IsSpace, line) }

  predicate IsBlank(line: string) { RightTrimmed(line) == "" }

  /** The lines without trailing blank lines, the last one right-trimmed. */
  function TrimEnd(lines: seq<string>): (r: seq<string>)
    ensures |r| <= |lines|
  {
    if lines == [] then []
    else
      var front, last := lines[..|lines| - 1], lines[|lines| - 1];
      if IsBlank(last) then TrimEnd(front) else front + [RightTrimmed(last)]
  }

  lemma TrimRightConcat(a: string, b: string)
    ensures RightTrimmed(a + b) == if IsBlank(b) then RightTrimmed(a) else a + RightTrimmed(b)
  {
    hide All;
    var k := Kept(IsSpace, b);
    if k == 0 {
      assert b[0..] == b;
      var n := Kept(IsSpace, a);
      AllConcat(IsSpace, a[n..], b);
      assert a + b == a[..n] + (a[n..] + b);
      KeptOf(IsSpace, a[..n], a[n..] + b);
    } else {
      assert a + b == (a + b[..k]) + b[k..];
      KeptOf(IsSpace, a + b[..k], b[k..]);
    }
  }

  lemma NewlineIsBlank()
    ensures All(IsSpace, "\n")
  {
  }

  /** Trimming the joined text is joining the trimmed lines. */
  lemma {:induction false} TrimJoin(lines: seq<string>)
    ensures RightTrimmed(Join("\n", lines)) == Join("\n", TrimEnd(lines))
  {
    if lines != [] {
      var front, last := lines[..|lines| - 1], lines[|lines| - 1];
      assert lines == front + [last];
      TrimJoin(front);
      hide RightTrimmed;
      if front == [] {
        assert Join("\n", lines) == last;
      } else {
        JoinAppend("\n", front, last);
        TrimRightConcat(Join("\n", front) + "\n", last);
        TrimNewline(Join("\n", front));
        JoinAppend("\n", front, RightTrimmed(last));
      }
    }
  }

  lemma TrimNewline(a: string)
    ensures RightTrimmed(a + "\n") == RightTrimmed(a)
  {
    NewlineIsBlank();
    hide All;
    assert "" + "\n" == "\n";
    KeptOf(IsSpace, "", "\n");
    TrimRightConcat(a, "\n");
  }

  lemma TrimEndSnoc(front: seq<string>, last: string)
    ensures TrimEnd(front + [last]) ==
            if IsBlank(last) then TrimEnd(front) else front + [RightTrimmed(last)]
  {
    assert (front + [last])[..|front|] == front;
  }

  lemma {:induction false} TrimEndTwice(lines: seq<string>)
    ensures TrimEnd(TrimEnd(lines)) == TrimEnd(lines)
  {
    if lines != [] {
      var front, last := lines[..|lines| - 1], lines[|lines| - 1];
      if IsBlank(last) {
        TrimEndTwice(front);
      } else {
        TrimRightTwice(last);
        hide RightTrimmed;
        TrimEndSnoc(front, RightTrimmed(last));
      }
    }
  }

  lemma TrimRightTwice(s: string)
    ensures RightTrimmed(RightTrimmed(s)) == RightTrimmed(s)
  {
    var r := RightTrimmed(s);
    EmptyBlank();
    hide All;
    assert r + "" == r;
    KeptOf(IsSpace, r, "");
  }

  lemma EmptyBlank()
    ensures All(IsSpace, "")
  {
  }

  lemma {:induction false} TrimEndNoBreaks(lines: seq<string>)
    requires NoBreaks(lines)
    ensures NoBreaks(TrimEnd(lines))
  {
    if lines != [] {
      var front, last := lines[..|lines| - 1], lines[|lines| - 1];
      assert NoBreaks(front);
      if IsBlank(last) {
        TrimEndNoBreaks(front);
      } else {
        assert All(NotBreak, last);
        var k := Kept(IsSpace, last);
        AllConcat(NotBreak, last[..k], last[k..]);
        assert last[..k] + last[k..] == last;
      }
    }
  }

  /** f neither blanks nor fills a line, and commutes with trimming its end. */
  ghost predicate KeepsEnd(f: string -> string, line: string) {
    && (IsBlank(line) <==> IsBlank(f(line)))
    && (!IsBlank(line) ==> f(RightTrimmed(line)) == RightTrimmed(f(line)))
  }

  lemma MapSnoc(f: string -> string, front: seq<string>, last: string)
    ensures MapLines(f, front + [last]) == MapLines(f, front) + [f(last)]
  {
  }

  lemma {:induction false} MapTrimEnd(f: string -> string, lines: seq<string>)
    requires forall i :: 0 <= i < |lines| ==> KeepsEnd(f, lines[i])
    ensures TrimEnd(MapLines(f, lines)) == MapLines(f, TrimEnd(lines))
  {
    if lines != [] {
      var front, last := lines[..|lines| - 1], lines[|lines| - 1];
      assert lines == front + [last];
      assert KeepsEnd(f, last);
      MapTrimEnd(f, front);
      hide RightTrimmed, TrimEnd;
      MapSnoc(f, front, last);
      MapSnoc(f, front, RightTrimmed(last));
      hide MapLines;
      TrimEndSnoc(MapLines(f, front), f(last));
      TrimEndSnoc(front, last);
    }
  }

  /** Writing lines with their trailing white space cut, then reading them back. */
  lemma ReadTrimmed(lines: seq<string>)
    requires NoBreaks(lines) && TrimEnd(lines) != []
    ensures SplitLines(RightTrimmed(Join("\n", lines)) + "\n") == TrimEnd(lines)
  {
    TrimJoin(lines);
    TrimEndNoBreaks(lines);
    hide RightTrimmed, NoBreaks, All;
    SplitUnlines(TrimEnd(lines));
  }

  /** A line that is not blank keeps its place, at most right-trimmed. */
  lemma {:induction false} TrimEndAt(lines: seq<string>, i: nat)
    requires i < |lines|
    ensures !IsBlank(lines[i]) ==> i < |TrimEnd(lines)|
    ensures i < |TrimEnd(lines)| ==>
            TrimEnd(lines)[i] == lines[i] || TrimEnd(lines)[i] == RightTrimmed(lines[i])
  {
    hide RightTrimmed;
    var front, last := lines[..|lines| - 1], lines[|lines| - 1];
    if i < |front| { TrimEndAt(front, i); }
  }
}
