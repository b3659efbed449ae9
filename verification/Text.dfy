/** Strings as the source's runtime sees them: whitespace, line breaks, trimming,
    splitting into lines and tokens, and joining back. */
module Text {

  datatype Option<+T> = None | Some(value: T)

  datatype Result<+T, +E> = Ok(value: T) | Err(error: E)

  const BOM: char := '\U{FEFF}'

  /** The characters at which `str.splitlines` breaks a text. */
  predicate IsBreak(c: char) {
    || '\U{000A}' <= c <= '\U{000D}'
    || '\U{001C}' <= c <= '\U{001E}'
    || c == '\U{0085}' || c == '\U{2028}' || c == '\U{2029}'
  }

  /** The characters `str.strip`, `str.split` and the pattern `\s` take as whitespace. */
  predicate IsSpace(c: char) {
    || IsBreak(c)
    || c == '\t' || c == ' ' || c == '\U{001F}'
    || c == '\U{00A0}' || c == '\U{1680}' || '\U{2000}' <= c <= '\U{200A}'
    || c == '\U{202F}' || c == '\U{205F}' || c == '\U{3000}'
  }

  predicate NotSpace(c: char) { !IsSpace(c) }

  predicate NotBreak(c: char) { !IsBreak(c) }

  predicate IsSlash(c: char) { c == '/' }

  predicate NotEquals(c: char) { c != '=' }

  predicate IsBom(c: char) { c == BOM }

  predicate All(p: char -> bool, s: string) {
    forall i :: 0 <= i < |s| ==> p(s[i])
  }

  lemma AllConcat(p: char -> bool, a: string, b: string)
    ensures All(p, a + b) <==> All(p, a) && All(p, b)
  {
    if All(p, a + b) {
      assert forall i :: 0 <= i < |a| ==> (a + b)[i] == a[i];
      assert forall i :: 0 <= i < |b| ==> (a + b)[|a| + i] == b[i];
    }
  }

  lemma Assoc<T>(a: seq<T>, b: seq<T>, c: seq<T>)
    ensures (a + b) + c == a + (b + c)
  {
  }

  lemma SameHead(head: string, a: string, b: string)
    requires head + a == head + b
    ensures a == b
  {
    assert a == (head + a)[|head|..];
    assert b == (head + b)[|head|..];
  }

  lemma SameText(head: string, a: string, b: string)
    ensures head + a == head + b <==> a == b
  {
    if head + a == head + b { SameHead(head, a, b); }
  }

  /** Length of the longest prefix whose characters all satisfy p. */
  function Span(p: char -> bool, s: string): (n: nat)
    ensures n <= |s| && All(p, s[..n])
    ensures n < |s| ==> !p(s[n])
  {
    if s == "" || !p(s[0]) then 0
    else
      var m := Span(p, s[1..]);
      assert forall i :: 0 <= i < m ==> s[1..][..m][i] == s[..m + 1][i + 1];
      m + 1
  }

  /** Length of s without its longest suffix of characters that satisfy p. */
  function Kept(p: char -> bool, s: string): (n: nat)
    ensures n <= |s| && All(p, s[n..])
    ensures n > 0 ==> !p(s[n - 1])
  {
    if s == "" || !p(s[|s| - 1]) then |s|
    else
      var n := Kept(p, s[..|s| - 1]);
      assert forall i :: n <= i < |s| - 1 ==> s[i] == s[..|s| - 1][n..][i - n];
      n
  }

  lemma HasEquals(t: string)
    ensures '=' in t <==> Span(NotEquals, t) < |t|
  {
    var n := Span(NotEquals, t);
    assert n < |t| ==> '=' in t;
    if '=' in t {
      var i :| 0 <= i < |t| && t[i] == '=';
      assert !NotEquals(t[i]);
      assert !All(NotEquals, t);
      assert t[..|t|] == t;
    }
  }

  function TrimLeft(p: char -> bool, s: string): string { s[Span(p, s)..] }

  function TrimRight(p: char -> bool, s: string): string { s[..Kept(p, s)] }

  function Trim(p: char -> bool, s: string): string { TrimRight(p, TrimLeft(p, s)) }

  function Strip(s: string): string { Trim(IsSpace, s) }

  /** Neither end of s satisfies p. */
  predicate Bare(p: char -> bool, s: string) {
    s != "" ==> !p(s[0]) && !p(s[|s| - 1])
  }

  predicate Trimmed(s: string) { Bare(IsSpace, s) }

  lemma {:induction false} SpanOf(p: char -> bool, a: string, b: string)
    requires All(p, a) && (b != "" ==> !p(b[0]))
    ensures Span(p, a + b) == |a|
  {
    if a == "" {
      assert a + b == b;
    } else {
      assert p(a[0]) && (a + b)[1..] == a[1..] + b;
      SpanOf(p, a[1..], b);
    }
  }

  lemma {:induction false} KeptOf(p: char -> bool, a: string, b: string)
    requires All(p, b) && (a != "" ==> !p(a[|a| - 1]))
    ensures Kept(p, a + b) == |a|
  {
    if b == "" {
      assert a + b == a;
    } else {
      var m := |b| - 1;
      assert p(b[m]) && (a + b)[..|a| + m] == a + b[..m];
      KeptOf(p, a, b[..m]);
    }
  }

  /** Trimming removes the padding on both sides and nothing else. */
  lemma TrimPadded(p: char -> bool, a: string, m: string, b: string)
    requires All(p, a) && All(p, b) && Bare(p, m)
    ensures Trim(p, a + m + b) == m
  {
    hide All;
    if m == "" {
      AllConcat(p, a, b);
      assert a + m + b == (a + b) + "";
      SpanOf(p, a + b, "");
    } else {
      assert a + m + b == a + (m + b);
      SpanOf(p, a, m + b);
      assert TrimLeft(p, a + m + b) == m + b;
      KeptOf(p, m, b);
    }
  }

  lemma TrimBare(p: char -> bool, s: string)
    requires Bare(p, s)
    ensures Trim(p, s) == s
  {
    assert "" + s + "" == s;
    TrimPadded(p, "", s, "");
  }

  /** Trimming takes off padding on both sides. */
  lemma TrimSplit(p: char -> bool, s: string) returns (a: string, b: string)
    ensures All(p, a) && All(p, b) && s == a + Trim(p, s) + b
  {
    var t := TrimLeft(p, s);
    var k := Kept(p, t);
    a, b := s[..Span(p, s)], t[k..];
    hide All, Span, Kept;
    assert t == t[..k] + b;
  }

  /** What is left after trimming is bare. */
  lemma TrimIsBare(p: char -> bool, s: string)
    ensures Bare(p, Trim(p, s))
  {
    hide All;
    var t := TrimLeft(p, s);
    assert t != "" ==> t[0] == s[Span(p, s)];
    var m := t[..Kept(p, t)];
    assert m != "" ==> m[0] == t[0] && m[|m| - 1] == t[|m| - 1];
  }

  // ---- Characters -------------------------------------------------------

  function LowerChar(c: char): (r: char)
    ensures r == c || (('A' <= c <= 'Z') && 'a' <= r <= 'z')
  {
    if 'A' <= c <= 'Z' then (c as int + 32) as char else c
  }

  function Lower(s: string): (r: string)
    ensures |r| == |s| && forall i :: 0 <= i < |s| ==> r[i] == LowerChar(s[i])
  {
    seq(|s|, i requires 0 <= i < |s| => LowerChar(s[i]))
  }

  function SlashChar(c: char): char { if c == '\\' then '/' else c }

  /** Every backslash becomes a slash. */
  function Slashed(s: string): (r: string)
    ensures |r| == |s| && forall i :: 0 <= i < |s| ==> r[i] == SlashChar(s[i])
  {
    seq(|s|, i requires 0 <= i < |s| => SlashChar(s[i]))
  }

  predicate IsLowered(s: string) { Lower(s) == s }

  lemma LowerTwice(s: string)
    ensures Lower(Lower(s)) == Lower(s)
  {
  }

  lemma LowerConcat(a: string, b: string)
    ensures Lower(a + b) == Lower(a) + Lower(b)
  {
  }

  // ---- Joining and splitting --------------------------------------------

  function Join(sep: string, parts: seq<string>): string {
    if parts == [] then ""
    else if |parts| == 1 then parts[0]
    else parts[0] + sep + Join(sep, parts[1..])
  }

  lemma {:induction false} JoinAppend(sep: string, parts: seq<string>, last: string)
    requires parts != []
    ensures Join(sep, parts + [last]) == Join(sep, parts) + sep + last
  {
    if |parts| == 1 {
      assert (parts + [last])[1..] == [last];
    } else {
      assert (parts + [last])[1..] == parts[1..] + [last];
      JoinAppend(sep, parts[1..], last);
    }
  }

  /** `"\n".join(lines) + "\n"`, the way the source writes a file. */
  function Unlines(lines: seq<string>): string { Join("\n", lines) + "\n" }

  predicate NoBreaks(lines: seq<string>) {
    forall i :: 0 <= i < |lines| ==> All(NotBreak, lines[i])
  }

  /** One break is a carriage return with its line feed, or any other break character. */
  function BreakLength(t: string, n: nat): (k: nat)
    requires n < |t|
    ensures 1 <= k <= |t| - n
  {
    if t[n] == '\r' && n + 1 < |t| && t[n + 1] == '\n' then 2 else 1
  }

  function SplitLines(t: string): (lines: seq<string>)
    ensures NoBreaks(lines)
    ensures lines == [] <==> t == ""
  {
    if t == "" then []
    else
      var n := Span(NotBreak, t);
      if n == |t| then [t] else [t[..n]] + SplitLines(t[n + BreakLength(t, n)..])
  }

  lemma SplitHead(line: string, rest: string)
    requires All(NotBreak, line)
    ensures SplitLines(line + "\n" + rest) == [line] + SplitLines(rest)
  {
    hide All;
    var t := line + "\n" + rest;
    assert t == line + ("\n" + rest);
    SpanOf(NotBreak, line, "\n" + rest);
    assert t[..|line|] == line && t[|line|] == '\n';
    assert t[|line| + 1..] == rest;
  }

  lemma {:induction false} SplitUnlines(lines: seq<string>)
    requires NoBreaks(lines) && lines != []
    ensures SplitLines(Unlines(lines)) == lines
  {
    assert All(NotBreak, lines[0]) && NoBreaks(lines[1..]);
    hide All, NoBreaks;
    var rest := if |lines| == 1 then "" else Unlines(lines[1..]);
    assert Unlines(lines) == lines[0] + "\n" + rest;
    SplitHead(lines[0], rest);
    if |lines| > 1 {
      SplitUnlines(lines[1..]);
    }
  }

  // ---- Tokens -----------------------------------------------------------

  predicate IsToken(t: string) { t != "" && All(NotSpace, t) }

  predicate AreTokens(ts: seq<string>) {
    forall i :: 0 <= i < |ts| ==> IsToken(ts[i])
  }

  /** `str.split()`: the maximal runs of non-space characters. */
  function Tokens(s: string): (ts: seq<string>)
    ensures AreTokens(ts)
    decreases |s|
  {
    var t := TrimLeft(IsSpace, s);
    if t == "" then []
    else
      var n := Span(NotSpace, t);
      [t[..n]] + Tokens(t[n..])
  }

  lemma TokensSkip(a: string, s: string)
    requires All(IsSpace, a)
    ensures Tokens(a + s) == Tokens(s)
  {
    hide All;
    var n := Span(IsSpace, s);
    AllConcat(IsSpace, a, s[..n]);
    assert a + s == (a + s[..n]) + s[n..];
    SpanOf(IsSpace, a + s[..n], s[n..]);
    assert TrimLeft(IsSpace, a + s) == TrimLeft(IsSpace, s);
  }

  lemma TokensHead(t: string, rest: string)
    requires IsToken(t)
    requires rest != "" ==> IsSpace(rest[0])
    ensures Tokens(t + rest) == [t] + Tokens(rest)
  {
    var s := t + rest;
    assert NotSpace(t[0]) && !IsSpace(s[0]);
    hide All;
    assert "" + s == s;
    SpanOf(IsSpace, "", s);
    SpanOf(NotSpace, t, rest);
    assert s[..|t|] == t && s[|t|..] == rest;
  }

  lemma SpaceIsSpace()
    ensures All(IsSpace, " ")
  {
  }

  lemma {:induction false} TokensOfJoin(ts: seq<string>)
    requires AreTokens(ts)
    ensures Tokens(Join(" ", ts)) == ts
  {
    if ts == [] {
    } else if |ts| == 1 {
      TokensHead(ts[0], "");
      assert ts[0] + "" == ts[0];
    } else {
      assert IsToken(ts[0]) && AreTokens(ts[1..]);
      hide IsToken, AreTokens, Tokens, All;
      var rest := Join(" ", ts[1..]);
      assert All(IsSpace, " ") by { SpaceIsSpace(); }
      assert Join(" ", ts) == ts[0] + (" " + rest);
      TokensHead(ts[0], " " + rest);
      TokensSkip(" ", rest);
      TokensOfJoin(ts[1..]);
    }
  }

  lemma TokensOfSpaces(s: string)
    requires All(IsSpace, s)
    ensures Tokens(s) == []
  {
    hide All;
    assert s + "" == s;
    TokensSkip(s, "");
  }

  lemma FirstToken(a: string) returns (gap: string, word: string, rest: string)
    requires !All(IsSpace, a)
    ensures a == gap + (word + rest) && All(IsSpace, gap) && IsToken(word)
    ensures rest != "" ==> IsSpace(rest[0])
  {
    hide All, Span, IsSpace;
    var n := SpaceEnds(a);
    gap := a[..n];
    word, rest := WordAndRest(a[n..]);
    Parted(a, n);
  }

  lemma Parted<T>(s: seq<T>, n: nat)
    requires n <= |s|
    ensures s == s[..n] + s[n..]
  {
  }

  lemma SpaceEnds(a: string) returns (n: nat)
    requires !All(IsSpace, a)
    ensures n < |a| && All(IsSpace, a[..n]) && NotSpace(a[n])
  {
    n := Span(IsSpace, a);
    assert a[..|a|] == a;
  }

  lemma WordAndRest(t: string) returns (word: string, rest: string)
    requires t != "" && NotSpace(t[0])
    ensures t == word + rest && IsToken(word) && (rest != "" ==> IsSpace(rest[0]))
  {
    var m := Span(NotSpace, t);
    hide All;
    word, rest := t[..m], t[m..];
    Parted(t, m);
  }

  /** The tokens of a text cut before a space are those of its two halves. */
  lemma {:induction false} TokensConcat(a: string, b: string)
    requires b != "" ==> IsSpace(b[0])
    ensures Tokens(a + b) == Tokens(a) + Tokens(b)
    decreases |a|
  {
    hide All, Tokens, AreTokens, IsSpace;
    if All(IsSpace, a) {
      TokensSkip(a, b);
      TokensOfSpaces(a);
    } else {
      var gap, word, rest := FirstToken(a);
      assert |word| > 0;
      assert a + b == gap + (word + (rest + b));
      TokensSkip(gap, word + (rest + b));
      TokensSkip(gap, word + rest);
      TokensHead(word, rest + b);
      TokensHead(word, rest);
      TokensConcat(rest, b);
    }
  }

  lemma TokensStrip(s: string)
    ensures Tokens(Strip(s)) == Tokens(s)
  {
    var a, b := TrimSplit(IsSpace, s);
    assert b != "" ==> IsSpace(b[0]);
    hide All, Tokens, Trim, IsSpace, AreTokens;
    var m := Strip(s);
    hide Strip, Span, Kept;
    assert s == a + (m + b);
    TokensSkip(a, m + b);
    TokensConcat(m, b);
    TokensOfSpaces(b);
    assert Tokens(m) + [] == Tokens(m);
  }

  lemma TokensOfToken(t: string)
    requires IsToken(t)
    ensures Tokens(t) == [t]
  {
    hide IsToken;
    assert t + "" == t;
    TokensHead(t, "");
  }

  /** A joined list of tokens, followed by any last piece. */
  lemma TokensOfJoinLast(ts: seq<string>, last: string)
    requires AreTokens(ts)
    ensures Tokens(Join(" ", ts + [last])) == ts + Tokens(last)
  {
    SpaceIsSpace();
    hide AreTokens, Tokens, All;
    if ts == [] {
      assert ts + [last] == [last];
    } else {
      hide Join;
      var front := Join(" ", ts);
      JoinAppend(" ", ts, last);
      Assoc(front, " ", last);
      TokensConcat(front, " " + last);
      TokensSkip(" ", last);
      TokensOfJoin(ts);
    }
  }

  lemma Regroup(a: string, x: string, m: string, y: string, b: string)
    ensures a + (x + m + y) + b == (a + x) + m + (y + b)
  {
  }

  lemma StripPadded(a: string, s: string, b: string)
    requires All(IsSpace, a) && All(IsSpace, b)
    ensures Strip(a + s + b) == Strip(s)
  {
    hide IsSpace, All, Trim, Bare;
    var x, y := TrimSplit(IsSpace, s);
    TrimIsBare(IsSpace, s);
    AllConcat(IsSpace, a, x);
    AllConcat(IsSpace, y, b);
    TrimPadded(IsSpace, a + x, Strip(s), y + b);
    Regroup(a, x, Strip(s), y, b);
  }

  lemma StripLeft(a: string, s: string)
    requires All(IsSpace, a)
    ensures Strip(a + s) == Strip(s)
  {
    assert All(IsSpace, "");
    hide All, Strip;
    assert a + s + "" == a + s;
    StripPadded(a, s, "");
  }

  lemma StripRight(s: string, b: string)
    requires All(IsSpace, b)
    ensures Strip(s + b) == Strip(s)
  {
    assert All(IsSpace, "");
    hide All, Strip;
    assert "" + s + b == s + b;
    StripPadded("", s, b);
  }

  lemma {:induction false} JoinAll(p: char -> bool, sep: string, parts: seq<string>)
    requires All(p, sep) && forall i :: 0 <= i < |parts| ==> All(p, parts[i])
    ensures All(p, Join(sep, parts))
  {
    if |parts| > 1 {
      assert All(p, parts[0]);
      assert forall i :: 0 <= i < |parts[1..]| ==> parts[1..][i] == parts[i + 1];
      JoinAll(p, sep, parts[1..]);
      hide All;
      AllConcat(p, parts[0], sep);
      AllConcat(p, parts[0] + sep, Join(sep, parts[1..]));
    }
  }

  lemma TrimKeepsAll(p: char -> bool, q: char -> bool, s: string)
    requires All(p, s)
    ensures All(p, Trim(q, s))
  {
    var a, b := TrimSplit(q, s);
    hide All, Trim;
    AllConcat(p, a + Trim(q, s), b);
    AllConcat(p, a, Trim(q, s));
  }

  lemma JoinTrimmed(ts: seq<string>)
    requires AreTokens(ts)
    ensures Strip(Join(" ", ts)) == Join(" ", ts)
  {
    if ts == [] {
      TrimBare(IsSpace, "");
    } else {
      var front, last := ts[..|ts| - 1], ts[|ts| - 1];
      assert ts == front + [last];
      assert IsToken(last) && IsToken(ts[0]);
      assert NotSpace(last[|last| - 1]) && NotSpace(ts[0][0]);
      var s := Join(" ", ts);
      assert s != "" && s[0] == ts[0][0];
      assert s[|s| - 1] == last[|last| - 1] by {
        if front != [] { JoinAppend(" ", front, last); }
      }
      hide All, IsSpace;
      TrimBare(IsSpace, s);
    }
  }
}
