/** Reading a VMware boot.cfg and rewriting it for HTTP: continuation lines, keys, the
    ordered modules, and the queue of resolved paths the rewriter consumes. */
module BootCfg {
  import opened Text
  import opened ConfigLine
  import opened Kernelopt
  import opened Kickstart
  import opened Modules
  import opened Refresh

  // ---- Continuation lines -----------------------------------------------

  predicate NotNewline(c: char) { c != '\n' }

  predicate IsCr(c: char) { c == '\r' }

  /** `raw.replace("\r\n", "\n")`. */
  function NoCrLf(raw: string): string {
    if raw == "" then ""
    else if |raw| >= 2 && raw[0] == '\r' && raw[1] == '\n' then "\n" + NoCrLf(raw[2..])
    else [raw[0]] + NoCrLf(raw[1..])
  }

  /** `t.split("\n")`. */
  function SplitNewline(t: string): (pieces: seq<string>)
    ensures pieces != []
  {
    var n := Span(NotNewline, t);
    if n == |t| then [t] else [t[..n]] + SplitNewline(t[n + 1..])
  }

  predicate IsContinued(s: string) { s != "" && s[|s| - 1] == '\\' }

  /** The text of a continued line without its backslash and the space before it. */
  function Continued(s: string): string
    requires IsContinued(s)
  {
    TrimRight(IsSpace, s[..|s| - 1])
  }

  /** Pieces joined at trailing backslashes, starting with what is pending in buf. */
  function MergePieces(pieces: seq<string>, buf: string): seq<string>
    decreases |pieces|
  {
    if pieces == [] then if buf == "" then [] else [buf]
    else
      var s := TrimRight(IsCr, pieces[0]);
      if IsContinued(s) then MergePieces(pieces[1..], buf + Continued(s))
      else [buf + s] + MergePieces(pieces[1..], "")
  }

  function Merged(raw: string): string {
    Join("\n", MergePieces(SplitNewline(NoCrLf(raw)), ""))
  }

  method MergeContinuations(raw: string) returns (text: string)
    ensures text == Merged(raw)
  {
    var pieces := SplitNewline(NoCrLf(raw));
    var merged: seq<string> := [];
    var buf := "";
    var i := 0;
    while i < |pieces|
      invariant 0 <= i <= |pieces|
      invariant merged + MergePieces(pieces[i..], buf) == MergePieces(pieces, "")
    {
      var s := TrimRight(IsCr, pieces[i]);
      assert pieces[i..][0] == pieces[i] && pieces[i..][1..] == pieces[i + 1..];
      if IsContinued(s) {
        buf := buf + Continued(s);
      } else {
        Assoc(merged, [buf + s], MergePieces(pieces[i + 1..], ""));
        merged := merged + [buf + s];
        buf := "";
      }
      i := i + 1;
    }
    if buf != "" {
      merged := merged + [buf];
    }
    assert merged == MergePieces(pieces, "");
    text := Join("\n", merged);
  }

  // ---- Reading ----------------------------------------------------------

  datatype Assignment = Assignment(key: string, value: string)

  /** What one logical line assigns, if anything. */
  function Read(line: string): Option<Assignment> {
    var l := Strip(line);
    if l == "" || IsComment(l) || '=' !in l then None
    else Some(Assignment(KeyOf(l), ValueOf(l)))
  }

  function ReadLines(lines: seq<string>): seq<Assignment> {
    if lines == [] then []
    else (if Read(lines[0]).Some? then [Read(lines[0]).value] else []) + ReadLines(lines[1..])
  }

  /** Every assignment of a boot.cfg, in order. */
  function Assignments(text: string): seq<Assignment> { ReadLines(SplitLines(Merged(text))) }

  /** The keys the source treats specially. */
  datatype Kind = PrefixKey | KernelKey | OptionKey | ModulesKey | ModuleKey | PlainKey

  function KindOf(key: string): Kind {
    if key == PREFIX || key == PREFIX_HTTP then PrefixKey
    else if key == KERNEL then KernelKey
    else if key == KERNELOPT then OptionKey
    else if key == MODULES then ModulesKey
    else if key == MODULE then ModuleKey
    else PlainKey
  }

  /** The module paths one assignment names. */
  function ModulesOf(a: Assignment): seq<string> {
    match KindOf(a.key)
    case ModuleKey => if a.value == "" then [] else [a.value]
    case ModulesKey => Segments(a.value)
    case _ => []
  }

  function ModuleList(items: seq<Assignment>): seq<string> {
    if items == [] then [] else ModulesOf(items[0]) + ModuleList(items[1..])
  }

  function Put(kv: map<string, string>, a: Assignment): map<string, string> {
    if KindOf(a.key).ModuleKey? || KindOf(a.key).ModulesKey? then kv else kv[a.key := a.value]
  }

  /** The plain keys: the last assignment wins. */
  function Keys(kv: map<string, string>, items: seq<Assignment>): map<string, string>
    decreases |items|
  {
    if items == [] then kv else Keys(Put(kv, items[0]), items[1..])
  }

  method ParseBootCfg(text: string) returns (kv: map<string, string>, mods: seq<string>)
    ensures kv == Keys(map[], Assignments(text))
    ensures mods == ModuleList(Assignments(text))
  {
    hide Merged, NoBreaks, Segments, KeyOf, ValueOf, IsComment, Strip, KindOf;
    var body := MergeContinuations(text);
    var lines := SplitLines(body);
    kv, mods := map[], [];
    var i := 0;
    while i < |lines|
      invariant 0 <= i <= |lines|
      invariant Keys(kv, ReadLines(lines[i..])) == Keys(map[], ReadLines(lines))
      invariant mods + ModuleList(ReadLines(lines[i..])) == ModuleList(ReadLines(lines))
    {
      var line := Strip(lines[i]);
      ReadFrom(lines, i);
      if line != "" && !IsComment(line) && '=' in line {
        var key, val := KeyOf(line), ValueOf(line);
        ModulesFrom(mods, Assignment(key, val), ReadLines(lines[i + 1..]));
        if KindOf(key) == ModuleKey {
          if val != "" {
            mods := mods + [val];
          }
        } else if KindOf(key) == ModulesKey {
          mods := mods + Segments(val);
        } else {
          kv := kv[key := val];
        }
      }
      i := i + 1;
    }
    assert mods + [] == mods;
  }

  lemma ReadFrom(lines: seq<string>, i: nat)
    requires i < |lines|
    ensures ReadLines(lines[i..]) ==
            if Read(lines[i]).Some? then [Read(lines[i]).value] + ReadLines(lines[i + 1..])
            else ReadLines(lines[i + 1..])
  {
    hide Read;
    assert lines[i..][0] == lines[i] && lines[i..][1..] == lines[i + 1..];
  }

  lemma ModulesFrom(mods: seq<string>, a: Assignment, rest: seq<Assignment>)
    ensures mods + ModuleList([a] + rest) == (mods + ModulesOf(a)) + ModuleList(rest)
    ensures mods + [] == mods
    ensures forall kv :: Keys(kv, [a] + rest) == Keys(Put(kv, a), rest)
  {
    hide ModulesOf, Put;
    assert ([a] + rest)[1..] == rest;
    Assoc(mods, ModulesOf(a), ModuleList(rest));
  }

  // ---- Rewriting --------------------------------------------------------

  datatype RewriteError = ModulesMismatch | ModuleExtra | Unreferenced

  datatype Outcome = Dropped | Written(line: string, used: nat) | Refused(error: RewriteError)

  /** One line of the source file, given the paths not yet used. */
  function RewriteLine(line: string, prefix: string, kernel: string, left: seq<string>): (r: Outcome)
    ensures r.Written? ==> r.used <= |left|
  {
    var s := Bared(line);
    if s == "" || IsComment(s) then Dropped
    else if Matches(PREFIX, s) || Matches(PREFIX_HTTP, s) then Written("prefix=" + prefix, 0)
    else if Matches(KERNEL, s) then Written("kernel=" + kernel, 0)
    else if Matches(KERNELOPT, s) then Written("kernelopt=" + Normalize(ValueOf(s)), 0)
    else if Matches(MODULES, s) then
      var n := |Segments(ValueOf(s))|;
      if |left| < n then Refused(ModulesMismatch)
      else Written("modules=" + JoinModules(left[..n]), n)
    else if Matches(MODULE, s) then
      if ValueOf(s) == "" then Written(s, 0)
      else if left == [] then Refused(ModuleExtra)
      else Written("module=" + left[0], 1)
    else if '=' !in s then Dropped
    else Written(s, 0)
  }

  predicate WritesPrefix(line: string) {
    var s := Bared(line);
    s != "" && !IsComment(s) && (Matches(PREFIX, s) || Matches(PREFIX_HTTP, s))
  }

  predicate AnyWritesPrefix(lines: seq<string>) {
    exists i :: 0 <= i < |lines| && WritesPrefix(lines[i])
  }

  datatype Pass = Pass(out: seq<string>, left: seq<string>)

  function PutBefore(line: string, rest: Result<Pass, RewriteError>): Result<Pass, RewriteError> {
    match rest
    case Ok(p) => Ok(Pass([line] + p.out, p.left))
    case Err(e) => Err(e)
  }

  /** All lines in order, consuming the paths from the front. */
  function RewriteLines(lines: seq<string>, prefix: string, kernel: string, left: seq<string>)
    : Result<Pass, RewriteError>
    decreases |lines|
  {
    if lines == [] then Ok(Pass([], left))
    else
      match RewriteLine(lines[0], prefix, kernel, left)
      case Dropped => RewriteLines(lines[1..], prefix, kernel, left)
      case Refused(e) => Err(e)
      case Written(line, used) =>
        PutBefore(line, RewriteLines(lines[1..], prefix, kernel, left[used..]))
  }

  const TITLE := "iPXE Manager \U{2014} ISO ESXi"
  const SUBTITLE := " extraite en entier ; prefix ="
  const ENDING := " racine HTTP de cette version"

  const HEADER := "# " + (TITLE + SUBTITLE + ENDING) + "."

  function FullPrefix(httpPrefix: string): string { TrimRight(IsSlash, httpPrefix) + "/" }

  function SourceLines(raw: string): seq<string> { SplitLines(TrimLeft(IsBom, Merged(raw))) }

  /** The lines of the rewritten file: the header, the prefix unless a line of the source
      gave it, and the rewritten lines. */
  function OutLines(raw: string, prefix: string, out: seq<string>): seq<string> {
    [HEADER] + (if AnyWritesPrefix(SourceLines(raw)) then [] else ["prefix=" + prefix]) + out
  }

  function Rewrite(raw: string, httpPrefix: string, kernel: string, paths: seq<string>)
    : Result<string, RewriteError>
  {
    var prefix := FullPrefix(httpPrefix);
    match RewriteLines(SourceLines(raw), prefix, kernel, paths)
    case Err(e) => Err(e)
    case Ok(p) =>
      if p.left != [] then Err(Unreferenced) else Ok(Unlines(OutLines(raw, prefix, p.out)))
  }

  lemma AnyWritesPrefixSnoc(lines: seq<string>, line: string)
    ensures AnyWritesPrefix(lines + [line]) <==> AnyWritesPrefix(lines) || WritesPrefix(line)
  {
    hide WritesPrefix;
    var all := lines + [line];
    assert all[|lines|] == line;
    assert forall i :: 0 <= i < |lines| ==> all[i] == lines[i];
  }

  lemma NoneWritesPrefix()
    ensures !AnyWritesPrefix([])
  {
  }

  /** What remains to be done at line i, put after what is already written. */
  function Resume(out: seq<string>, rest: Result<Pass, RewriteError>): Result<Pass, RewriteError> {
    match rest
    case Ok(p) => Ok(Pass(out + p.out, p.left))
    case Err(e) => Err(e)
  }

  lemma ResumeBefore(out: seq<string>, line: string, rest: Result<Pass, RewriteError>)
    ensures Resume(out, PutBefore(line, rest)) == Resume(out + [line], rest)
  {
    if rest.Ok? { Assoc(out, [line], rest.value.out); }
  }

  lemma ResumeNone(rest: Result<Pass, RewriteError>)
    ensures Resume([], rest) == rest
  {
    if rest.Ok? { assert [] + rest.value.out == rest.value.out; }
  }

  /** What follows the outcome of one line. */
  function Following(o: Outcome, rest: seq<string>, prefix: string, kernel: string, left: seq<string>)
    : Result<Pass, RewriteError>
    requires o.Written? ==> o.used <= |left|
  {
    if o.Refused? then Err(o.error)
    else if o.Dropped? then RewriteLines(rest, prefix, kernel, left)
    else PutBefore(o.line, RewriteLines(rest, prefix, kernel, left[o.used..]))
  }

  lemma RewriteFrom(lines: seq<string>, i: nat, prefix: string, kernel: string, left: seq<string>)
    requires i < |lines|
    ensures RewriteLines(lines[i..], prefix, kernel, left) ==
            Following(RewriteLine(lines[i], prefix, kernel, left), lines[i + 1..], prefix, kernel, left)
  {
    hide RewriteLine, PutBefore;
    assert lines[i..][0] == lines[i] && lines[i..][1..] == lines[i + 1..];
  }

  method RewriteBootCfg(raw: string, httpPrefix: string, kernel: string, paths: seq<string>)
    returns (result: Result<string, RewriteError>)
    ensures result == Rewrite(raw, httpPrefix, kernel, paths)
  {
    hide Merged, NoBreaks, RewriteLines, PutBefore, AnyWritesPrefix, Unlines, Bared, Segments, Normalize,
         ValueOf, Matches, IsComment, TrimLeft, TrimRight, JoinModules;
    var merged := MergeContinuations(raw);
    var lines := SplitLines(TrimLeft(IsBom, merged));
    var prefix := FullPrefix(httpPrefix);
    var out: seq<string> := [];
    var qi := 0;
    var wrotePrefix := false;
    var i := 0;
    NoneWritesPrefix();
    ResumeNone(RewriteLines(lines, prefix, kernel, paths));
    assert lines[0..] == lines && paths[0..] == paths;
    while i < |lines|
      invariant 0 <= i <= |lines| && 0 <= qi <= |paths|
      invariant wrotePrefix <==> AnyWritesPrefix(lines[..i])
      invariant Resume(out, RewriteLines(lines[i..], prefix, kernel, paths[qi..])) ==
                RewriteLines(lines, prefix, kernel, paths)
    {
      RewriteFrom(lines, i, prefix, kernel, paths[qi..]);
      assert lines[..i + 1] == lines[..i] + [lines[i]];
      AnyWritesPrefixSnoc(lines[..i], lines[i]);
      var s := Bared(lines[i]);
      ghost var left, rest := paths[qi..], lines[i + 1..];
      i := i + 1;
      if s == "" || IsComment(s) {
        continue;
      }
      if Matches(PREFIX, s) || Matches(PREFIX_HTTP, s) {
        KeepLeft(paths, qi, out, "prefix=" + prefix, rest, prefix, kernel);
        out := out + ["prefix=" + prefix];
        wrotePrefix := true;
      } else if Matches(KERNEL, s) {
        KeepLeft(paths, qi, out, "kernel=" + kernel, rest, prefix, kernel);
        out := out + ["kernel=" + kernel];
      } else if Matches(KERNELOPT, s) {
        var kopt := Normalize(ValueOf(s));
        KeepLeft(paths, qi, out, "kernelopt=" + kopt, rest, prefix, kernel);
        out := out + ["kernelopt=" + kopt];
      } else if Matches(MODULES, s) {
        var n := |Segments(ValueOf(s))|;
        if |paths| - qi < n {
          return Err(ModulesMismatch);
        }
        var chunk := paths[qi..qi + n];
        assert left[..n] == chunk && left[n..] == paths[qi + n..];
        ResumeBefore(out, "modules=" + JoinModules(chunk),
                     RewriteLines(rest, prefix, kernel, paths[qi + n..]));
        qi := qi + n;
        out := out + ["modules=" + JoinModules(chunk)];
      } else if Matches(MODULE, s) {
        if ValueOf(s) == "" {
          KeepLeft(paths, qi, out, s, rest, prefix, kernel);
          out := out + [s];
        } else {
          if qi >= |paths| {
            return Err(ModuleExtra);
          }
          assert left[0] == paths[qi] && left[1..] == paths[qi + 1..];
          ResumeBefore(out, "module=" + paths[qi], RewriteLines(rest, prefix, kernel, paths[qi + 1..]));
          out := out + ["module=" + paths[qi]];
          qi := qi + 1;
        }
      } else if '=' in s {
        KeepLeft(paths, qi, out, s, rest, prefix, kernel);
        out := out + [s];
      }
    }
    assert lines[..|lines|] == lines;
    RewriteNone(lines, prefix, kernel, paths[qi..]);
    assert out + [] == out;
    var all := [HEADER] + (if wrotePrefix then [] else ["prefix=" + prefix]) + out;
    if qi != |paths| {
      return Err(Unreferenced);
    }
    result := Ok(Unlines(all));
  }

  /** A line that uses no path, put after what is already written. */
  lemma KeepLeft(paths: seq<string>, qi: nat, out: seq<string>, line: string, rest: seq<string>,
                 prefix: string, kernel: string)
    requires qi <= |paths|
    ensures paths[qi..][0..] == paths[qi..]
    ensures Resume(out, PutBefore(line, RewriteLines(rest, prefix, kernel, paths[qi..]))) ==
            Resume(out + [line], RewriteLines(rest, prefix, kernel, paths[qi..]))
  {
    hide RewriteLines;
    ResumeBefore(out, line, RewriteLines(rest, prefix, kernel, paths[qi..]));
  }

  lemma RewriteNone(lines: seq<string>, prefix: string, kernel: string, left: seq<string>)
    ensures RewriteLines(lines[|lines|..], prefix, kernel, left) == Ok(Pass([], left))
  {
  }
}
