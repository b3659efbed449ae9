/** The menu refresh of a deployed boot.cfg: paths lower-cased, prefix and kernelopt
    rewritten, a prefix inserted when there is none. */
module Refresh {
  import opened Text
  import opened Lines
  import opened ConfigLine
  import opened Kernelopt
  import opened Kickstart
  import opened Modules

  const KERNEL := "kernel"
  const MODULES := "modules"
  const MODULE := "module"
  const PREFIX := "prefix"
  const PREFIX_HTTP := "prefix-http"

  function LowerPaths(parts: seq<string>): (r: seq<string>)
    ensures |r| == |parts| && forall i :: 0 <= i < |parts| ==> r[i] == LowerRel(parts[i])
  {
    seq(|parts|, i requires 0 <= i < |parts| => LowerRel(parts[i]))
  }

  /** What the line recognisers see: the line without padding and byte order marks. */
  function Bared(line: string): string { TrimLeft(IsBom, Strip(line)) }

  function NormalizeLine(line: string): string {
    var s := Bared(line);
    if s == "" then ""
    else if IsComment(s) then line
    else if Matches(KERNEL, s) then "kernel=" + LowerRel(ValueOf(s))
    else if Matches(MODULES, s) then "modules=" + JoinModules(LowerPaths(Segments(ValueOf(s))))
    else if Matches(MODULE, s) then
      if ValueOf(s) == "" then "module=" else "module=" + LowerRel(ValueOf(s))
    else line
  }

  function NormalizeLineOf(): string -> string { line => NormalizeLine(line) }

  /** Lines and modules of a deployed file with their paths in lower case. */
  function NormalizePaths(text: string): string {
    Unlines(MapLines(NormalizeLineOf(), SplitLines(text)))
  }

  method NormalizeBootCfgPaths(text: string) returns (result: string)
    ensures result == NormalizePaths(text)
  {
    hide NormalizeLine, NoBreaks;
    var lines := SplitLines(text);
    var out: seq<string> := [];
    var i := 0;
    while i < |lines|
      invariant 0 <= i <= |lines|
      invariant out == MapLines(NormalizeLineOf(), lines[..i])
    {
      assert lines[..i + 1] == lines[..i] + [lines[i]];
      out := out + [NormalizeLine(lines[i])];
      i := i + 1;
    }
    assert lines[..|lines|] == lines;
    result := Join("\n", out) + "\n";
  }

  predicate IsPrefix(line: string) {
    MatchesIndented(PREFIX, line) || MatchesIndented(PREFIX_HTTP, line)
  }

  /** One line of the second pass, for a prefix `base`. */
  function NetworkLine(line: string, base: string): string {
    if IsPrefix(line) then "prefix=" + base
    else if IsKernelopt(line) then "kernelopt=" + Normalize(ValueOf(line))
    else line
  }

  function NetworkLineOf(base: string): string -> string { line => NetworkLine(line, base) }

  predicate AnyPrefix(lines: seq<string>) {
    exists i :: 0 <= i < |lines| && IsPrefix(lines[i])
  }

  /** How many lines at the top are comments. */
  function LeadingComments(lines: seq<string>): (n: nat)
    ensures n <= |lines|
  {
    if lines != [] && IsComment(Strip(lines[0])) then 1 + LeadingComments(lines[1..]) else 0
  }

  function InsertPrefix(lines: seq<string>, base: string): seq<string> {
    var n := LeadingComments(lines);
    lines[..n] + ["prefix=" + base] + lines[n..]
  }

  function NetworkLines(lines: seq<string>, base: string): seq<string> {
    var out := MapLines(NetworkLineOf(base), lines);
    if AnyPrefix(lines) then out else InsertPrefix(out, base)
  }

  function Refreshed(text: string, base: string): string {
    Unlines(NetworkLines(SplitLines(NormalizePaths(text)), base))
  }

  lemma AnyPrefixSnoc(lines: seq<string>, line: string)
    ensures AnyPrefix(lines + [line]) <==> AnyPrefix(lines) || IsPrefix(line)
  {
    hide IsPrefix;
    var all := lines + [line];
    assert all[|lines|] == line;
    assert forall i :: 0 <= i < |lines| ==> all[i] == lines[i];
  }

  lemma LeadingCommentsFrom(lines: seq<string>, n: nat)
    requires n <= LeadingComments(lines)
    ensures n < |lines| && IsComment(Strip(lines[n])) ==> n < LeadingComments(lines)
    ensures n == |lines| || !IsComment(Strip(lines[n])) ==> n == LeadingComments(lines)
  {
    hide IsComment, Strip;
    if n > 0 { LeadingCommentsFrom(lines[1..], n - 1); }
  }

  method RefreshBootCfg(text: string, base: string) returns (result: string)
    ensures result == Refreshed(text, base)
  {
    hide NormalizePaths, IsPrefix, IsKernelopt, Normalize, ValueOf, AnyPrefix, NoBreaks, IsComment,
         Strip;
    var normalized := NormalizeBootCfgPaths(text);
    var lines := SplitLines(normalized);
    var out: seq<string> := [];
    var replaced := false;
    var i := 0;
    NoPrefixInNone();
    while i < |lines|
      invariant 0 <= i <= |lines|
      invariant out == MapLines(NetworkLineOf(base), lines[..i])
      invariant replaced <==> AnyPrefix(lines[..i])
    {
      var line := lines[i];
      assert lines[..i + 1] == lines[..i] + [line];
      AnyPrefixSnoc(lines[..i], line);
      if IsPrefix(line) {
        out := out + ["prefix=" + base];
        replaced := true;
      } else if IsKernelopt(line) {
        out := out + ["kernelopt=" + Normalize(ValueOf(line))];
      } else {
        out := out + [line];
      }
      i := i + 1;
    }
    assert lines[..|lines|] == lines;
    if !replaced {
      var at := 0;
      while at < |out| && IsComment(Strip(out[at]))
        invariant 0 <= at <= LeadingComments(out)
      {
        LeadingCommentsFrom(out, at);
        at := at + 1;
      }
      LeadingCommentsFrom(out, at);
      out := out[..at] + ["prefix=" + base] + out[at..];
    }
    result := Join("\n", out) + "\n";
  }

  lemma NoPrefixInNone()
    ensures !AnyPrefix([])
  {
  }
}
