/** Rewriting the kickstart token twice is rewriting it once, exactly when the first
    URL leaves no stray token behind. */
module KickstartLaws {
  import opened Text
  import opened Lines
  import opened ConfigLine
  import opened Kernelopt
  import opened Kickstart

  // ---- Lists of tokens --------------------------------------------------

  lemma {:induction false} KeepConcat(a: seq<string>, b: seq<string>)
    ensures Keep(a + b) == Keep(a) + Keep(b)
  {
    hide IsDropped;
    if a == [] {
      assert a + b == b;
    } else {
      assert (a + b)[0] == a[0] && (a + b)[1..] == a[1..] + b;
      KeepConcat(a[1..], b);
    }
  }

  predicate NoneDropped(ts: seq<string>) {
    forall i :: 0 <= i < |ts| ==> !IsDropped(ts[i])
  }

  lemma {:induction false} KeepIsKept(ts: seq<string>)
    ensures NoneDropped(Keep(ts))
  {
    hide IsDropped;
    if ts != [] { KeepIsKept(ts[1..]); }
  }

  lemma {:induction false} KeepAll(ts: seq<string>)
    requires NoneDropped(ts)
    ensures Keep(ts) == ts
  {
    if ts != [] {
      assert NoneDropped(ts[1..]);
      assert !IsDropped(ts[0]);
      hide IsDropped, NoneDropped;
      KeepAll(ts[1..]);
    }
  }

  predicate HasRunweasel(ts: seq<string>) {
    exists i :: 0 <= i < |ts| && IsRunweasel(ts[i])
  }

  lemma HasRunweaselConcat(a: seq<string>, b: seq<string>)
    ensures HasRunweasel(a + b) <==> HasRunweasel(a) || HasRunweasel(b)
  {
    hide IsRunweasel;
    var c := a + b;
    assert forall i :: 0 <= i < |a| ==> c[i] == a[i];
    assert forall i :: 0 <= i < |b| ==> c[|a| + i] == b[i];
  }

  lemma WithRunweaselHas(ts: seq<string>)
    ensures HasRunweasel(WithRunweasel(ts))
  {
    RunweaselToken();
    hide IsRunweasel, IsToken;
    if !HasRunweasel(ts) { assert WithRunweasel(ts)[0] == "runweasel"; }
  }

  lemma RunweaselToken()
    ensures IsRunweasel("runweasel") && IsToken("runweasel") && !IsDropped("runweasel")
  {
    assert Lower("runweasel") == "runweasel";
    assert "runweasel"[..3] == "run" != "ks=";
  }

  /** What activation keeps of a line it has just written, before the new `ks=`. */
  function Stable(existing: string): (ts: seq<string>)
    ensures AreTokens(ts)
  {
    WithRunweasel(Keep(Tokens(existing)))
  }

  lemma StableIsKept(existing: string)
    ensures NoneDropped(Stable(existing)) && HasRunweasel(Stable(existing))
    ensures Stable(existing) != []
  {
    hide AreTokens, Tokens, IsDropped, IsRunweasel, IsToken;
    var kept := Keep(Tokens(existing));
    KeepIsKept(Tokens(existing));
    RunweaselToken();
    WithRunweaselHas(kept);
    assert NoneDropped(["runweasel"] + kept);
  }

  // ---- The value of one kernelopt line ----------------------------------

  /** The tokens a URL leaves on the line after its own `ks=` token is dropped again. */
  function Leftover(ks: string): seq<string> { Keep(Tokens("ks=" + ks)) }

  lemma TokensOfMerge(existing: string, ks: string)
    ensures Tokens(Merge(existing, ks)) ==
            Stable(existing) + if ks == "" then [] else Tokens("ks=" + ks)
  {
    hide AreTokens, Tokens, Strip, Keep, WithRunweasel;
    var ts := Stable(existing);
    TokensStrip(Join(" ", MergedTokens(existing, ks)));
    if ks == "" {
      assert ts + [] == ts;
      TokensOfJoin(ts);
    } else {
      TokensOfJoinLast(ts, "ks=" + ks);
    }
  }

  lemma StableOfMerge(existing: string, ks: string)
    ensures Stable(Merge(existing, ks)) ==
            Stable(existing) + if ks == "" then [] else Leftover(ks)
  {
    hide AreTokens, Tokens, Merge, IsDropped, Stable, NoneDropped, HasRunweasel;
    var ts := Stable(existing);
    var more := if ks == "" then [] else Tokens("ks=" + ks);
    TokensOfMerge(existing, ks);
    StableIsKept(existing);
    KeepConcat(ts, more);
    KeepAll(ts);
    HasRunweaselConcat(ts, Keep(more));
    KeptStable(Merge(existing, ks), ts + Keep(more));
  }

  lemma KeptStable(existing: string, kept: seq<string>)
    requires kept == Keep(Tokens(existing)) && HasRunweasel(kept)
    ensures Stable(existing) == kept
  {
    hide IsRunweasel, Keep, Tokens;
  }

  predicate NoSpaceIn(s: string) { All(NotSpace, s) }

  /** A URL without white space leaves nothing behind. */
  lemma LeftoverOfPlainUrl(ks: string)
    requires NoSpaceIn(ks)
    ensures Leftover(ks) == []
  {
    var t := "ks=" + ks;
    KsIsToken(ks);
    assert Lower(t)[..3] == "ks=";
    assert IsDropped(t);
    hide IsDropped, IsToken, Tokens;
    TokensOfToken(t);
    assert Keep([t][1..]) == [];
  }

  lemma KsIsToken(ks: string)
    requires NoSpaceIn(ks)
    ensures IsToken("ks=" + ks)
  {
    assert All(NotSpace, "ks=");
    AllConcat(NotSpace, "ks=", ks);
  }

  // ---- One line ---------------------------------------------------------

  lemma KerneloptName()
    ensures IsName(KERNELOPT)
  {
  }

  lemma MergeIsTrimmed(existing: string, ks: string)
    ensures Strip(Merge(existing, ks)) == Merge(existing, ks) && Trimmed(Merge(existing, ks))
  {
    hide Tokens, WithRunweasel, Keep, Trim, Join;
    var s := Join(" ", MergedTokens(existing, ks));
    TrimIsBare(IsSpace, s);
    TrimBare(IsSpace, Strip(s));
  }

  lemma WrittenKernelopt(x: string)
    ensures IsKernelopt("kernelopt=" + x) && ValueOf("kernelopt=" + x) == Strip(x)
  {
    hide MatchesIndented, ValueOf, IsName, Strip;
    KerneloptName();
    WrittenLine(KERNELOPT, x);
    assert KERNELOPT + "=" + x == "kernelopt=" + x;
  }

  lemma KsLineAgain(line: string, first: string, second: string)
    ensures KsLine(KsLine(line, first), second) ==
            if IsKernelopt(line)
            then "kernelopt=" + Merge(Merge(ValueOf(line), first), second)
            else line
  {
    hide IsKernelopt, ValueOf, Merge;
    if IsKernelopt(line) {
      WrittenKernelopt(Merge(ValueOf(line), first));
      MergeIsTrimmed(ValueOf(line), first);
    }
  }

  /** Leaves nothing: no URL, or one whose own tokens are all dropped again. */
  predicate LeavesNothing(ks: string) { ks == "" || Leftover(ks) == [] }

  lemma MergeAgain(existing: string, first: string, second: string)
    requires LeavesNothing(first)
    ensures Merge(Merge(existing, first), second) == Merge(existing, second)
  {
    hide Tokens, WithRunweasel, Keep, Trim, Join, Leftover;
    StableOfMerge(existing, first);
    assert Stable(existing) + [] == Stable(existing);
  }

  // ---- Trailing white space ---------------------------------------------

  lemma PrefixedTrim(head: string, m: string)
    requires Trimmed(m) && head != "" && !IsSpace(head[|head| - 1])
    ensures RightTrimmed(head + m) == head + m
  {
    var s := head + m;
    assert s[|s| - 1] == if m == "" then head[|head| - 1] else m[|m| - 1];
    assert All(IsSpace, "");
    assert s + "" == s;
    hide All, IsSpace;
    KeptOf(IsSpace, s, "");
  }

  lemma WrittenIsTrimmed(existing: string, ks: string)
    ensures RightTrimmed("kernelopt=" + Merge(existing, ks)) == "kernelopt=" + Merge(existing, ks)
    ensures !IsBlank("kernelopt=" + Merge(existing, ks))
  {
    hide Merge, RightTrimmed;
    MergeIsTrimmed(existing, ks);
    PrefixedTrim("kernelopt=", Merge(existing, ks));
  }

  lemma BlankHasNoKernelopt(line: string)
    requires IsBlank(line)
    ensures !IsKernelopt(line)
  {
    hide MatchesIndented, IsName, TrimRight;
    KerneloptName();
    MatchesRightTrimmed(KERNELOPT, line);
    EmptyNoMatch(KERNELOPT);
  }

  lemma EmptyNoMatch(name: string)
    requires name != ""
    ensures !MatchesIndented(name, "")
  {
  }

  lemma KsKeepsEnd(line: string, ks: string)
    ensures KeepsEnd(KsLineOf(ks), line)
  {
    hide Merge, MatchesIndented, ValueOf, TrimRight, IsName;
    KerneloptName();
    MatchesRightTrimmed(KERNELOPT, line);
    if IsKernelopt(line) {
      WrittenIsTrimmed(ValueOf(line), ks);
      if IsBlank(line) { BlankHasNoKernelopt(line); }
    }
  }

  lemma KsTrimEnd(lines: seq<string>, ks: string)
    ensures TrimEnd(MapLines(KsLineOf(ks), lines)) == MapLines(KsLineOf(ks), TrimEnd(lines))
  {
    forall i | 0 <= i < |lines| ensures KeepsEnd(KsLineOf(ks), lines[i]) {
      KsKeepsEnd(lines[i], ks);
    }
    hide KeepsEnd, KsLineOf;
    MapTrimEnd(KsLineOf(ks), lines);
  }

  // ---- The whole file ---------------------------------------------------

  predicate OneLine(s: string) { All(NotBreak, s) }

  lemma TokenHasNoBreak(t: string)
    requires IsToken(t)
    ensures OneLine(t)
  {
    assert forall i :: 0 <= i < |t| ==> NotSpace(t[i]);
  }

  lemma WrittenOneLine(existing: string, ks: string)
    requires OneLine(ks)
    ensures OneLine("kernelopt=" + Merge(existing, ks))
  {
    var ts := MergedTokens(existing, ks);
    var stable := Stable(existing);
    forall i | 0 <= i < |ts| ensures OneLine(ts[i]) {
      if i < |stable| {
        assert IsToken(stable[i]);
        TokenHasNoBreak(ts[i]);
      } else {
        AllConcat(NotBreak, "ks=", ks);
        KsPrefixOneLine();
      }
    }
    KsPrefixOneLine();
    hide All, MergedTokens;
    JoinAll(NotBreak, " ", ts);
    TrimKeepsAll(NotBreak, IsSpace, Join(" ", ts));
    AllConcat(NotBreak, "kernelopt=", Merge(existing, ks));
  }

  lemma KsPrefixOneLine()
    ensures OneLine("ks=") && OneLine(" ") && OneLine("kernelopt=")
  {
  }

  lemma KsLinesOneLine(lines: seq<string>, ks: string)
    requires NoBreaks(lines) && OneLine(ks)
    ensures NoBreaks(KsLines(lines, ks))
  {
    hide All, Merge, IsKernelopt, ValueOf;
    var out := KsLines(lines, ks);
    forall i | 0 <= i < |out| ensures OneLine(out[i]) {
      if i < |lines| { WrittenOneLine(ValueOf(lines[i]), ks); } else { WrittenOneLine("", ks); }
    }
  }

  /** Where the first pass leaves a kernelopt line, and with which value it was merged. */
  lemma KerneloptLineOf(lines: seq<string>, ks: string) returns (i: nat, existing: string)
    ensures i < |KsLines(lines, ks)|
    ensures forall u :: i < |KsLines(lines, u)| && KsLines(lines, u)[i] == "kernelopt=" + Merge(existing, u)
  {
    hide Merge, IsKernelopt, ValueOf;
    if AnyKernelopt(lines) {
      i :| i < |lines| && IsKernelopt(lines[i]);
      existing := ValueOf(lines[i]);
    } else {
      i, existing := |lines|, "";
    }
  }

  lemma TrimmedHasKernelopt(lines: seq<string>, ks: string)
    ensures TrimEnd(KsLines(lines, ks)) != []
    ensures AnyKernelopt(TrimEnd(KsLines(lines, ks)))
  {
    hide Merge, IsKernelopt, RightTrimmed, KsLines, TrimEnd;
    var i, existing := KerneloptLineOf(lines, ks);
    var out := KsLines(lines, ks);
    WrittenIsTrimmed(existing, ks);
    WrittenKernelopt(Merge(existing, ks));
    TrimEndAt(out, i);
    assert IsKernelopt(TrimEnd(out)[i]);
  }

  /** Reading back what a rewrite has written. */
  lemma ReadBack(text: string, ks: string)
    requires OneLine(ks)
    ensures SplitLines(WithKs(text, ks)) == TrimEnd(KsLines(SplitLines(text), ks))
  {
    var lines := SplitLines(text);
    hide All, NoBreaks, KsLines, RightTrimmed, SplitLines;
    KsLinesOneLine(lines, ks);
    TrimmedHasKernelopt(lines, ks);
    ReadTrimmed(KsLines(lines, ks));
  }

  /** The lines a second pass writes, before trimming. */
  lemma SecondPass(lines: seq<string>, first: string, second: string)
    ensures KsLines(TrimEnd(KsLines(lines, first)), second) ==
            TrimEnd(MapLines(KsLineOf(second), KsLines(lines, first)))
  {
    hide AnyKernelopt, KsLineOf;
    TrimmedHasKernelopt(lines, first);
    hide KsLines;
    KsTrimEnd(KsLines(lines, first), second);
    KsLinesWhenAny(TrimEnd(KsLines(lines, first)), second);
  }

  lemma KsLinesWhenAny(lines: seq<string>, ks: string)
    requires AnyKernelopt(lines)
    ensures KsLines(lines, ks) == MapLines(KsLineOf(ks), lines)
  {
  }

  lemma MapAgain(lines: seq<string>, first: string, second: string)
    requires LeavesNothing(first)
    ensures MapLines(KsLineOf(second), KsLines(lines, first)) == KsLines(lines, second)
  {
    hide Merge, IsKernelopt, ValueOf, LeavesNothing, Strip;
    var once, twice := KsLines(lines, first), MapLines(KsLineOf(second), KsLines(lines, first));
    forall i | 0 <= i < |twice| ensures twice[i] == KsLines(lines, second)[i] {
      if i < |lines| {
        KsLineAgain(lines[i], first, second);
        MergeAgain(ValueOf(lines[i]), first, second);
      } else {
        WrittenKernelopt(Merge("", first));
        MergeIsTrimmed("", first);
        MergeAgain("", first, second);
      }
    }
  }

  /** The second rewrite forgets the first one. */
  lemma KickstartAbsorbs(text: string, first: string, second: string)
    requires OneLine(first) && LeavesNothing(first)
    ensures WithKs(WithKs(text, first), second) == WithKs(text, second)
  {
    hide All, KsLines, MapLines, SplitLines, RightTrimmed, LeavesNothing;
    var lines := SplitLines(text);
    ReadBack(text, first);
    SecondPass(lines, first, second);
    MapAgain(lines, first, second);
    TrimEndTwice(KsLines(lines, second));
    TrimJoin(KsLines(lines, second));
    TrimJoin(TrimEnd(KsLines(lines, second)));
  }

  lemma MergesDiffer(existing: string, first: string, second: string)
    requires Merge(Merge(existing, first), second) == Merge(existing, second)
    ensures LeavesNothing(first)
  {
    hide Tokens, Merge, Stable, Leftover, AreTokens;
    TokensOfMerge(Merge(existing, first), second);
    TokensOfMerge(existing, second);
    StableOfMerge(existing, first);
  }

  lemma KickstartAbsorbsOnly(text: string, first: string, second: string)
    requires OneLine(first) && OneLine(second)
    requires WithKs(WithKs(text, first), second) == WithKs(text, second)
    ensures LeavesNothing(first)
  {
    var lines := SplitLines(text);
    hide All, MapLines, SplitLines, RightTrimmed, LeavesNothing, WithKs, Merge, KsLines,
         IsKernelopt, ValueOf, TrimEnd;
    ReadBack(text, first);
    ReadBack(text, second);
    ReadBack(WithKs(text, first), second);
    SecondPass(lines, first, second);
    var once := KsLines(lines, first);
    var twice := MapLines(KsLineOf(second), once);
    TrimEndTwice(twice);
    assert TrimEnd(twice) == TrimEnd(KsLines(lines, second));
    var i, existing := KerneloptLineOf(lines, first);
    KsLinesSameLength(lines, first, second);
    WrittenKernelopt(Merge(existing, first));
    MergeIsTrimmed(existing, first);
    assert twice[i] == "kernelopt=" + Merge(Merge(existing, first), second);
    WrittenIsTrimmed(Merge(existing, first), second);
    WrittenIsTrimmed(existing, second);
    TrimEndAt(twice, i);
    TrimEndAt(KsLines(lines, second), i);
    SameHead("kernelopt=", Merge(Merge(existing, first), second), Merge(existing, second));
    MergesDiffer(existing, first, second);
  }

  lemma KsLinesSameLength(lines: seq<string>, first: string, second: string)
    ensures |KsLines(lines, first)| == |KsLines(lines, second)|
  {
  }

  /** Rewriting with one URL and then another (or none) is byte for byte rewriting with
      the second alone, for every text, exactly when the first leaves nothing behind. */
  lemma KickstartAbsorption(text: string, first: string, second: string)
    requires OneLine(first) && OneLine(second)
    ensures WithKs(WithKs(text, first), second) == WithKs(text, second) <==> LeavesNothing(first)
  {
    hide WithKs, LeavesNothing, All;
    if LeavesNothing(first) { KickstartAbsorbs(text, first, second); }
    if WithKs(WithKs(text, first), second) == WithKs(text, second) {
      KickstartAbsorbsOnly(text, first, second);
    }
  }

  /** A URL without white space always leaves nothing. */
  lemma PlainUrlLeavesNothing(ks: string)
    requires NoSpaceIn(ks)
    ensures LeavesNothing(ks) && OneLine(ks)
  {
    assert OneLine(ks) by { assert forall i :: 0 <= i < |ks| ==> NotSpace(ks[i]); }
    hide All, Keep, Tokens;
    LeftoverOfPlainUrl(ks);
  }

  lemma KsTokenDropped(ks: string)
    requires NoSpaceIn(ks)
    ensures Tokens("ks=" + ks) == ["ks=" + ks] && IsDropped("ks=" + ks)
  {
    KsIsToken(ks);
    assert Lower("ks=" + ks)[..3] == "ks=";
    hide IsToken, IsDropped;
    TokensOfToken("ks=" + ks);
  }

  /** A file name with a space in it: clearing does not undo activating, the second word
      of the name stays on the line. */
  lemma SpaceInUrlStays(head: string, word: string)
    requires NoSpaceIn(head) && IsToken(word) && !IsDropped(word)
    ensures Leftover(head + " " + word) == [word]
  {
    hide IsToken, IsDropped, All, Tokens;
    KsTokenDropped(head);
    assert Tokens(" " + word) == [word] by {
      SpaceIsSpace();
      TokensSkip(" ", word);
      TokensOfToken(word);
    }
    TokensConcat("ks=" + head, " " + word);
    assert "ks=" + (head + " " + word) == ("ks=" + head) + (" " + word);
    KeepConcat(["ks=" + head], [word]);
    KeepOne("ks=" + head);
    KeepOne(word);
  }

  lemma KeepOne(t: string)
    ensures Keep([t]) == if IsDropped(t) then [] else [t]
  {
    hide IsDropped;
    assert [t][1..] == [];
  }
}
