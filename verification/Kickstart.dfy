/** Kickstart activation: the `ks=` token of every `kernelopt` line of a boot.cfg is
    replaced, or dropped when no URL is given. */
module Kickstart {
  import opened Text
  import opened Lines
  import opened Url
  import opened ConfigLine
  import opened Kernelopt

  const KERNELOPT := "kernelopt"

  predicate IsCdrom(t: string) { Lower(t) == "cdromboot" }

  predicate IsKs(t: string) { StartsWith(Lower(t), "ks=") }

  predicate IsDropped(t: string) { IsCdrom(t) || IsKs(t) }

  /** The tokens activation keeps, in order. */
  function Keep(ts: seq<string>): (r: seq<string>)
    ensures AreTokens(ts) ==> AreTokens(r)
  {
    if ts == [] then []
    else if IsDropped(ts[0]) then Keep(ts[1..])
    else [ts[0]] + Keep(ts[1..])
  }

  function KsTokens(ks: string): seq<string> { if ks == "" then [] else ["ks=" + ks] }

  /** The tokens written back; the empty URL stands for no URL. */
  function MergedTokens(existing: string, ks: string): seq<string> {
    WithRunweasel(Keep(Tokens(existing))) + KsTokens(ks)
  }

  function Merge(existing: string, ks: string): string {
    Strip(Join(" ", MergedTokens(existing, ks)))
  }

  method MergeKernelopt(existing: string, ks: string) returns (merged: string)
    ensures merged == Merge(existing, ks)
  {
    hide AreTokens, All, Tokens, IsDropped, Trim;
    var all := Tokens(existing);
    var tokens: seq<string> := [];
    var i := 0;
    while i < |all|
      invariant 0 <= i <= |all|
      invariant tokens + Keep(all[i..]) == Keep(all)
    {
      var t := all[i];
      assert all[i..][0] == t && all[i..][1..] == all[i + 1..];
      if !IsDropped(t) {
        assert tokens + ([t] + Keep(all[i + 1..])) == (tokens + [t]) + Keep(all[i + 1..]);
        tokens := tokens + [t];
      }
      i := i + 1;
    }
    assert all[|all|..] == [] && tokens + [] == tokens;
    tokens := WithRunweasel(tokens);
    assert tokens + [] == tokens;
    if ks != "" {
      tokens := tokens + ["ks=" + ks];
    }
    merged := Strip(Join(" ", tokens));
  }

  // ---- The whole file ---------------------------------------------------

  predicate IsKernelopt(line: string) { MatchesIndented(KERNELOPT, line) }

  function KsLine(line: string, ks: string): string {
    if IsKernelopt(line) then "kernelopt=" + Merge(ValueOf(line), ks) else line
  }

  function KsLineOf(ks: string): string -> string { line => KsLine(line, ks) }

  predicate AnyKernelopt(lines: seq<string>) {
    exists i :: 0 <= i < |lines| && IsKernelopt(lines[i])
  }

  /** Every `kernelopt` line rewritten, or one appended when there is none. */
  function KsLines(lines: seq<string>, ks: string): seq<string> {
    MapLines(KsLineOf(ks), lines)
    + if AnyKernelopt(lines) then [] else ["kernelopt=" + Merge("", ks)]
  }

  function WithKs(text: string, ks: string): string {
    RightTrimmed(Join("\n", KsLines(SplitLines(text), ks))) + "\n"
  }

  lemma AnyKerneloptSnoc(lines: seq<string>, line: string)
    ensures AnyKernelopt(lines + [line]) <==> AnyKernelopt(lines) || IsKernelopt(line)
  {
    hide IsKernelopt;
    var all := lines + [line];
    assert all[|lines|] == line;
    assert forall i :: 0 <= i < |lines| ==> all[i] == lines[i];
  }

  method RewriteKernelopt(text: string, ks: string) returns (result: string)
    ensures result == WithKs(text, ks)
  {
    hide IsKernelopt, Merge, NoBreaks, All, RightTrimmed, AnyKernelopt;
    var lines := SplitLines(text);
    var out: seq<string> := [];
    var replaced := false;
    var i := 0;
    assert !AnyKernelopt([]) by { NoKerneloptInNone(); }
    while i < |lines|
      invariant 0 <= i <= |lines|
      invariant out == MapLines(KsLineOf(ks), lines[..i])
      invariant replaced <==> AnyKernelopt(lines[..i])
    {
      var line := lines[i];
      assert lines[..i + 1] == lines[..i] + [line];
      AnyKerneloptSnoc(lines[..i], line);
      if IsKernelopt(line) {
        var merged := MergeKernelopt(ValueOf(line), ks);
        out := out + ["kernelopt=" + merged];
        replaced := true;
      } else {
        out := out + [line];
      }
      i := i + 1;
    }
    assert lines[..|lines|] == lines;
    if !replaced {
      var merged := MergeKernelopt("", ks);
      out := out + ["kernelopt=" + merged];
    } else {
      assert out + [] == out;
    }
    result := RightTrimmed(Join("\n", out)) + "\n";
  }

  lemma NoKerneloptInNone()
    ensures !AnyKernelopt([])
  {
  }
}
