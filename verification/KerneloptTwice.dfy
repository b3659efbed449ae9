/** Lower-casing a `kernelopt` token a second time changes nothing. */
module KerneloptTwice {
  import opened Text
  import opened Url
  import opened Kernelopt
  import opened KerneloptWords

  /** Characters of a token that needs no percent decoding. */
  predicate IsPlain(c: char) { !IsSpace(c) && c != '%' }

  lemma {:induction false} UnquotePlain(s: string)
    requires All(NotPercent, s)
    ensures Unquote(s) == s
  {
    if s != "" { UnquotePlain(s[1..]); }
  }

  lemma LowerPlain(s: string)
    requires All(IsPlain, s)
    ensures All(IsPlain, Lower(s))
  {
  }

  lemma PlainSlice(s: string, i: nat, j: nat)
    requires All(IsPlain, s) && i <= j <= |s|
    ensures All(IsPlain, s[i..j])
  {
    forall k | 0 <= k < j - i ensures IsPlain(s[i..j][k]) {
      assert IsPlain(s[i + k]);
    }
  }

  lemma PlainCut(p: char -> bool, s: string)
    requires All(IsPlain, s)
    ensures All(IsPlain, Before(p, s)) && All(IsPlain, After(p, s))
  {
    hide All;
    var n := Span(p, s);
    PlainSlice(s, 0, n);
    PlainSlice(s, n, |s|);
    if n < |s| {
      PlainSlice(s, n + 1, |s|);
      assert s[n + 1..] == s[n + 1..|s|];
    } else {
      PlainSlice(s, 0, 0);
    }
  }

  lemma PlainTarget(target: string)
    requires All(IsPlain, target)
    ensures All(IsPlain, PathOf(target)) && All(IsPlain, ParamsOf(target))
  {
    hide All;
    var last := LastSegment(target);
    PlainSlice(target, 0, last);
    PlainSlice(target, last, |target|);
    assert target[last..] == target[last..|target|];
    PlainCut(NotSemicolon, target[last..]);
    AllConcat(IsPlain, target[..last], Before(NotSemicolon, target[last..]));
  }

  lemma PlainParts(u: string)
    requires IsHttp(u) && All(IsPlain, u)
    ensures ArePlain(ParseUrl(u))
  {
    hide All, PathOf, ParamsOf;
    var k := |SchemeOf(u)| + 3;
    var rest := u[k..];
    PlainSlice(u, k, |u|);
    assert rest == u[k..|u|];
    PlainCut(NotNetEnd, rest);
    var n := Span(NotNetEnd, rest);
    PlainSlice(rest, n, |rest|);
    assert TailOf(rest) == rest[n..|rest|];
    var body := Before(NotHash, TailOf(rest));
    PlainCut(NotHash, TailOf(rest));
    PlainCut(NotQuestion, body);
    PlainTarget(Before(NotQuestion, body));
  }

  predicate ArePlain(c: Parts) {
    && All(IsPlain, c.netloc) && All(IsPlain, c.path) && All(IsPlain, c.params)
    && All(IsPlain, c.query) && All(IsPlain, c.fragment)
  }

  lemma PlainTagged(mark: string, s: string)
    requires All(IsPlain, mark) && All(IsPlain, s)
    ensures All(IsPlain, Tagged(mark, s))
  {
    AllConcat(IsPlain, mark, s);
  }

  lemma PlainMarks(scheme: string)
    requires scheme == "http" || scheme == "https"
    ensures All(IsPlain, ";") && All(IsPlain, "?") && All(IsPlain, "#")
    ensures All(IsPlain, scheme + "://")
  {
  }

  lemma PlainUnparse(c: Parts)
    requires WellFormed(c) && ArePlain(c)
    ensures All(IsPlain, Unparse(c))
  {
    hide All;
    PlainMarks(c.scheme);
    PlainTagged(";", c.params);
    PlainTagged("?", c.query);
    PlainTagged("#", c.fragment);
    AllConcat(IsPlain, c.path, Tagged(";", c.params));
    AllConcat(IsPlain, c.path + Tagged(";", c.params), Tagged("?", c.query));
    AllConcat(IsPlain, c.path + Tagged(";", c.params) + Tagged("?", c.query), Tagged("#", c.fragment));
    AllConcat(IsPlain, c.netloc, UnparseTail(c));
    AllConcat(IsPlain, c.scheme + "://", c.netloc + UnparseTail(c));
  }

  /** The parts of a lower-cased URL: only the path has changed. */
  function LoweredParts(u: string): Parts
    requires IsHttp(u)
  {
    var c := ParseUrl(u);
    c.(path := Lower(c.path))
  }

  lemma LowerAll(p: char -> bool, s: string)
    requires All(p, s) && forall c :: p(c) ==> p(LowerChar(c))
    ensures All(p, Lower(s))
  {
    forall i | 0 <= i < |s| ensures p(Lower(s)[i]) {
      assert p(s[i]);
    }
  }

  lemma LowerLastSegment(path: string)
    ensures LastSegment(Lower(path)) == LastSegment(path)
  {
    var n := LastSegment(path);
    LowerAll(NotSlash, path[n..]);
    assert Lower(path) == Lower(path[..n]) + Lower(path[n..]) by {
      LowerConcat(path[..n], path[n..]);
      assert path[..n] + path[n..] == path;
    }
    KeptOf(NotSlash, Lower(path[..n]), Lower(path[n..]));
  }

  lemma LoweredPartsWellFormed(u: string)
    requires IsHttp(u)
    ensures WellFormed(LoweredParts(u))
  {
    hide ParseUrl, IsHttp;
    ParseWellFormed(u);
    var path := ParseUrl(u).path;
    LowerLastSegment(path);
    var n := LastSegment(path);
    assert Lower(path)[n..] == Lower(path[n..]);
    LowerAll(NotSemicolon, path[n..]);
    LowerAll(NotHash, path);
    LowerAll(NotQuestion, path);
  }

  lemma PlainUnquote(path: string)
    requires All(IsPlain, path)
    ensures Unquote(path) == path && All(IsPlain, Lower(path))
  {
    assert All(NotPercent, path) by {
      assert forall i :: 0 <= i < |path| ==> IsPlain(path[i]);
    }
    UnquotePlain(path);
    LowerPlain(path);
  }

  lemma LowerUrlPathIs(u: string)
    requires IsHttp(u) && All(IsPlain, u)
    ensures LowerUrlPath(u) ==
            if BadNetloc(ParseUrl(u).netloc) || ParseUrl(u).path == "" then u
            else Unparse(LoweredParts(u))
    ensures ArePlain(LoweredParts(u))
  {
    PlainParts(u);
    ParseWellFormed(u);
    hide All, ParseUrl, IsHttp, Unparse, Unquote, Lower, LastSegment, BadNetloc;
    var c := ParseUrl(u);
    assert c.path != "" ==> '/' in c.path by { if c.path != "" { assert c.path[0] == '/'; } }
    hide WellFormed;
    PlainUnquote(c.path);
  }

  lemma LowerUrlPathPlain(u: string)
    requires IsHttp(u) && All(IsPlain, u)
    ensures IsHttp(LowerUrlPath(u)) && All(IsPlain, LowerUrlPath(u))
  {
    hide All, ParseUrl, IsHttp, Unparse, WellFormed, ArePlain, LowerUrlPath, LoweredParts;
    LowerUrlPathIs(u);
    LoweredPartsWellFormed(u);
    PlainUnparse(LoweredParts(u));
    ParseUnparse(LoweredParts(u));
  }

  lemma LowerUrlPathTwice(u: string)
    requires IsHttp(u) && All(IsPlain, u)
    ensures IsHttp(LowerUrlPath(u)) && LowerUrlPath(LowerUrlPath(u)) == LowerUrlPath(u)
  {
    hide All, ParseUrl, IsHttp, Unparse, LowerUrlPath, WellFormed;
    LowerUrlPathPlain(u);
    LowerUrlPathIs(u);
    LoweredPartsWellFormed(u);
    ParseUnparse(LoweredParts(u));
    LowerTwice(ParseUrl(u).path);
    LowerUrlPathIs(LowerUrlPath(u));
  }

  lemma LowerUrlPathMentions(u: string)
    requires IsHttp(u) && All(IsPlain, u)
    ensures MentionsCdrom(LowerUrlPath(u)) <==> MentionsCdrom(u)
  {
    hide All, ParseUrl, IsHttp, Unparse, LowerUrlPath, WellFormed, MentionsCdrom;
    LowerUrlPathIs(u);
    MentionsParse(u);
    LoweredPartsWellFormed(u);
    MentionsUnparse(LoweredParts(u));
    LowerSameWords(ParseUrl(u).path);
  }

  lemma PlainStrip(t: string)
    requires All(IsPlain, t)
    ensures Strip(t) == t && All(NotSpace, Slashed(t)) && All(IsPlain, Slashed(t))
  {
    assert forall i :: 0 <= i < |t| ==> IsPlain(t[i]);
    TrimBare(IsSpace, t);
  }

  lemma PlainTrim(p: char -> bool, s: string)
    requires All(IsPlain, s)
    ensures All(IsPlain, Trim(p, s))
  {
    hide All;
    var n := Span(p, s);
    PlainSlice(s, n, |s|);
    assert s[n..] == s[n..|s|];
    PlainSlice(s[n..], 0, Kept(p, s[n..]));
  }

  /** On a plain value: slashes replaced, trimmed and lower-cased. */
  lemma LowerRelPlain(t: string)
    requires All(IsPlain, t)
    ensures LowerRel(Slashed(t)) == LowerRel(t) == Lower(Trim(IsSlash, Slashed(t)))
    ensures All(IsPlain, LowerRel(t))
  {
    PlainStrip(t);
    PlainStrip(Slashed(t));
    assert Slashed(Slashed(t)) == Slashed(t);
    hide All;
    PlainTrim(IsSlash, Slashed(t));
    LowerPlain(Trim(IsSlash, Slashed(t)));
  }

  lemma LowerRelMentions(t: string)
    requires All(IsPlain, t)
    ensures MentionsCdrom(LowerRel(t)) <==> MentionsCdrom(t)
  {
    LowerRelPlain(t);
    hide All, MentionsCdrom, LowerRel, Trim, Slashed, Lower;
    SlashedSameWords(t);
    MentionsTrim(IsSlash, Slashed(t));
    LowerSameWords(Trim(IsSlash, Slashed(t)));
  }

  predicate NotBackslash(c: char) { c != '\\' }

  /** Trimming and lower-casing bring in none of the characters the tokens are cut at. */
  lemma LowerRelChars(t: string)
    ensures '=' !in t ==> '=' !in LowerRel(t)
    ensures All(NotBackslash, LowerRel(t))
  {
    var u := Strip(t);
    var a, b := TrimSplit(IsSpace, t);
    var c, d := TrimSplit(IsSlash, Slashed(u));
    var m := Trim(IsSlash, Slashed(u));
    forall i | 0 <= i < |m|
      ensures Lower(m)[i] != '\\' && ('=' !in t ==> Lower(m)[i] != '=')
    {
      assert m[i] == Slashed(u)[|c| + i] == SlashChar(u[|c| + i]);
      assert u[|c| + i] == t[|a| + |c| + i];
    }
  }

  lemma LowerRelTwice(t: string)
    requires Trimmed(LowerRel(t))
    ensures LowerRel(LowerRel(t)) == LowerRel(t)
  {
    var m := Trim(IsSlash, Slashed(Strip(t)));
    TrimIsBare(IsSlash, Slashed(Strip(t)));
    TrimBare(IsSpace, Lower(m));
    LowerRelChars(t);
    assert Slashed(Lower(m)) == Lower(m) by {
      assert forall i :: 0 <= i < |m| ==> NotBackslash(Lower(m)[i]);
    }
    TrimBare(IsSlash, Lower(m));
    LowerTwice(m);
  }

  // ---- URLs that lose nothing -------------------------------------------

  /** A mark with nothing after it: what `urlunparse` does not write again. */
  predicate EmptyMark(p: char -> bool, s: string) { Span(p, s) < |s| && After(p, s) == "" }

  /** The fragment, query or parameter mark of this URL has nothing after it. */
  predicate HasEmptyMark(u: string)
    requires IsHttp(u)
  {
    var tail := TailOf(u[|SchemeOf(u)| + 3..]);
    var body := Before(NotHash, tail);
    var target := Before(NotQuestion, body);
    EmptyMark(NotHash, tail) || EmptyMark(NotQuestion, body) ||
    EmptyMark(NotSemicolon, target[LastSegment(target)..])
  }

  /** A lower-cased URL that is written back as it was read. */
  predicate Complete(u: string)
    requires IsHttp(u)
  {
    BadNetloc(ParseUrl(u).netloc) || ParseUrl(u).path == "" || !HasEmptyMark(u)
  }

  lemma MarkPiece(p: char -> bool, mark: string, s: string)
    requires |mark| == 1 && forall c :: p(c) <==> c != mark[0]
    ensures
      var again := Before(p, s) + Tagged(mark, After(p, s));
      if EmptyMark(p, s) then |again| == |s| - 1 else again == s
  {
    var n := Span(p, s);
    if n < |s| {
      assert s[n] == mark[0];
      assert s == s[..n] + ([s[n]] + s[n + 1..]);
      assert mark == [s[n]];
    } else {
      assert s[..n] + "" == s;
    }
  }

  lemma TargetPieces(target: string)
    ensures
      var again := PathOf(target) + Tagged(";", ParamsOf(target));
      if EmptyMark(NotSemicolon, target[LastSegment(target)..]) then |again| == |target| - 1
      else again == target
  {
    var last := LastSegment(target);
    var s := target[last..];
    MarkPiece(NotSemicolon, ";", s);
    hide LastSegment, EmptyMark;
    Assoc(target[..last], Before(NotSemicolon, s), Tagged(";", After(NotSemicolon, s)));
    assert target[..last] + s == target;
  }

  /** Writing back what follows the network location. */
  lemma TailPieces(scheme: string, netloc: string, tail: string)
    ensures ParseTail(scheme, netloc, tail).scheme == scheme
    ensures ParseTail(scheme, netloc, tail).netloc == netloc
    ensures
      var again := UnparseTail(ParseTail(scheme, netloc, tail));
      var body := Before(NotHash, tail);
      var target := Before(NotQuestion, body);
      if EmptyMark(NotHash, tail) || EmptyMark(NotQuestion, body) ||
         EmptyMark(NotSemicolon, target[LastSegment(target)..])
      then |again| < |tail|
      else again == tail
  {
    var body := Before(NotHash, tail);
    var target := Before(NotQuestion, body);
    MarkPiece(NotHash, "#", tail);
    MarkPiece(NotQuestion, "?", body);
    TargetPieces(target);
    hide EmptyMark, PathOf, ParamsOf, LastSegment;
    assert |body| == |Before(NotHash, tail)|;
  }

  lemma LowerScheme(u: string)
    requires IsHttp(u) && IsLowered(u)
    ensures u[..|SchemeOf(u)| + 3] == SchemeOf(u) + "://"
  {
    assert Lower(u) == u;
  }

  /** A lower-cased URL is written back unchanged exactly when no mark of it is empty. */
  lemma UnparsedWhole(u: string)
    requires IsHttp(u) && IsLowered(u)
    ensures Unparse(ParseUrl(u)) == u <==> !HasEmptyMark(u)
  {
    hide EmptyMark, PathOf, ParamsOf, LastSegment, IsHttp, SchemeOf, ParseTail, UnparseTail, IsLowered,
         Before, TailOf;
    SchemeFits(u);
    LowerScheme(u);
    var k := |SchemeOf(u)| + 3;
    var rest := u[k..];
    RestPieces(rest);
    TailPieces(SchemeOf(u), Before(NotNetEnd, rest), TailOf(rest));
    assert u[..k] + rest == u;
    TailKept(SchemeOf(u) + "://", Before(NotNetEnd, rest), UnparseTail(ParseUrl(u)), TailOf(rest));
  }

  lemma TailKept(scheme: string, netloc: string, x: string, y: string)
    ensures |x| < |y| ==> scheme + (netloc + x) != scheme + (netloc + y)
  {
    assert |scheme + (netloc + x)| == |scheme| + |netloc| + |x|;
    assert |scheme + (netloc + y)| == |scheme| + |netloc| + |y|;
  }

  lemma SchemeFits(u: string)
    requires IsHttp(u)
    ensures |SchemeOf(u)| + 3 <= |u|
  {
  }

  lemma RestPieces(rest: string)
    ensures Before(NotNetEnd, rest) + TailOf(rest) == rest
  {
  }

  /** Trimming the slashes of the value uncovers a URL. */
  predicate HidesUrl(v: string) {
    !IsHttp(v) && '/' in Slashed(v) && IsHttp(LowerRel(v))
  }

  /** No URL comes to light, or only one that loses nothing when it is written back. */
  predicate IsSettledValue(v: string) { HidesUrl(v) ==> Complete(LowerRel(v)) }

  lemma LowerIfPathLikePlain(v: string)
    requires All(IsPlain, v)
    ensures All(IsPlain, LowerIfPathLike(v))
    ensures MentionsCdrom(LowerIfPathLike(v)) <==> MentionsCdrom(v)
    ensures !IsHttp(v) && '=' !in v ==> '=' !in LowerIfPathLike(v)
    ensures IsHttp(v) ==> LowerIfPathLike(v) == LowerUrlPath(v) && IsHttp(LowerIfPathLike(v))
  {
    hide All, IsHttp, MentionsCdrom, LowerUrlPath, LowerRel, Strip, Slashed, Lower, Trim;
    PlainStrip(v);
    LowerRelPlain(v);
    LowerRelChars(v);
    LowerRelMentions(v);
    if IsHttp(v) {
      LowerUrlPathPlain(v);
      LowerUrlPathMentions(v);
    }
  }

  lemma PlainTrimmed(t: string)
    requires All(IsPlain, t)
    ensures Trimmed(t)
  {
    assert forall i :: 0 <= i < |t| ==> IsPlain(t[i]);
  }

  /** The path is a piece of the URL. */
  lemma PathPlace(u: string) returns (i: nat)
    requires IsHttp(u)
    ensures i + |ParseUrl(u).path| <= |u| && ParseUrl(u).path == u[i..i + |ParseUrl(u).path|]
  {
    hide IsHttp, SchemeOf, ParamsOf, PathOf, After;
    SchemeFits(u);
    var k := |SchemeOf(u)| + 3;
    var rest := u[k..];
    i := k + Span(NotNetEnd, rest);
    var tail := TailOf(rest);
    assert tail == u[i..];
    PathHead(tail);
  }

  lemma PathHead(tail: string)
    ensures
      var path := PathOf(Before(NotQuestion, Before(NotHash, tail)));
      |path| <= |tail| && path == tail[..|path|]
  {
    hide LastSegment, Span, All, PathOf;
    var body := Before(NotHash, tail);
    var target := Before(NotQuestion, body);
    HeadOfHead(tail, |body|, |target|);
    PathIsHead(target);
    HeadOfHead(tail, |target|, |PathOf(target)|);
  }

  lemma HeadOfHead(s: string, n: nat, m: nat)
    requires m <= n <= |s|
    ensures s[..n][..m] == s[..m]
  {
  }

  lemma PathIsHead(target: string)
    ensures |PathOf(target)| <= |target| && PathOf(target) == target[..|PathOf(target)|]
  {
    hide Kept, Span, All;
    var last := LastSegment(target);
    var k := Span(NotSemicolon, target[last..]);
    assert target[..last] + target[last..][..k] == target[..last + k];
  }

  lemma PathIsLowered(u: string)
    requires IsHttp(u) && IsLowered(u)
    ensures Lower(ParseUrl(u).path) == ParseUrl(u).path
  {
    hide IsHttp, ParseUrl;
    var i := PathPlace(u);
    var path := ParseUrl(u).path;
    forall k | 0 <= k < |path| ensures LowerChar(path[k]) == path[k] {
      assert Lower(u)[i + k] == LowerChar(u[i + k]) && path[k] == u[i + k];
    }
  }

  lemma LowerRelLowered(v: string)
    ensures IsLowered(LowerRel(v))
  {
    hide Trim, Slashed, Lower;
    LowerTwice(Trim(IsSlash, Slashed(Strip(v))));
  }

  lemma LoweredUrlTwice(r: string)
    requires IsHttp(r) && All(IsPlain, r) && IsLowered(r)
    ensures LowerUrlPath(r) == r <==> Complete(r)
  {
    LowerUrlPathIs(r);
    UnparsedWhole(r);
    PathIsLowered(r);
    hide All, ParseUrl, IsHttp, Unparse, LowerUrlPath, BadNetloc, HasEmptyMark, IsLowered;
    assert LoweredParts(r) == ParseUrl(r);
  }

  lemma LowerIfPathLikeTwice(v: string)
    requires All(IsPlain, v)
    ensures LowerIfPathLike(LowerIfPathLike(v)) == LowerIfPathLike(v) <==> IsSettledValue(v)
  {
    hide IsHttp, LowerUrlPath, LowerRel, All, Strip, Slashed, Complete;
    PlainStrip(v);
    LowerRelPlain(v);
    if IsHttp(v) {
      LowerUrlPathPlain(v);
      LowerUrlPathTwice(v);
      PlainStrip(LowerUrlPath(v));
    } else if '/' in Slashed(v) {
      var r := LowerRel(v);
      PlainStrip(r);
      PlainTrimmed(r);
      LowerRelPlain(r);
      if IsHttp(r) {
        LowerRelLowered(v);
        LoweredUrlTwice(r);
      } else {
        LowerRelTwice(v);
      }
    }
  }

  /** The part of a token that may be lower-cased. */
  function ValuePart(t: string): string {
    if !IsHttp(t) && '=' in t then After(NotEquals, t) else t
  }

  /** The key and its equals sign, when the token has the form key=value. */
  function KeyPart(t: string): string {
    if !IsHttp(t) && '=' in t then Before(NotEquals, t) + "=" else ""
  }

  lemma TokenParts(t: string)
    ensures t == KeyPart(t) + ValuePart(t)
    ensures All(IsPlain, t) ==> All(IsPlain, KeyPart(t)) && All(IsPlain, ValuePart(t))
  {
    hide All, IsHttp;
    if !IsHttp(t) && '=' in t {
      HasEquals(t);
      var n := Span(NotEquals, t);
      assert t[n] == '=';
      assert t == (t[..n] + "=") + t[n + 1..];
      AllConcat(IsPlain, t[..n] + "=", t[n + 1..]);
    } else {
      assert "" + t == t;
      AllConcat(IsPlain, "", t);
    }
  }

  lemma LowerTokenParts(t: string)
    requires All(IsPlain, t)
    ensures LowerToken(t) == KeyPart(t) + LowerIfPathLike(ValuePart(t))
  {
    PlainStrip(t);
    hide All, IsHttp, LowerIfPathLike, Strip;
    assert "" + LowerIfPathLike(t) == LowerIfPathLike(t);
  }

  lemma HttpBeforeEquals(u: string, t: string, k: nat)
    requires IsHttp(u) && k < |u| && k < |t| && u[k] == '='
    requires u[..k] == t[..k]
    ensures IsHttp(t)
  {
    var n := if StartsWith(Lower(u), "http://") then 7 else 8;
    assert Lower(u)[k] == '=';
    assert n <= k by {
      assert "http://"[..7] == "http://";
      assert forall i :: 0 <= i < n ==> Lower(u)[i] == Lower(u)[..n][i] != '=';
    }
    assert forall i :: 0 <= i < n ==> u[i] == u[..k][i] == t[i];
    assert Lower(t)[..n] == Lower(u)[..n];
  }

  /** Replacing the value keeps the key, and with it the way the token is read. */
  lemma SameKey(t: string, v: string)
    requires !IsHttp(t) && '=' in t
    ensures KeyPart(KeyPart(t) + v) == KeyPart(t) && ValuePart(KeyPart(t) + v) == v
  {
    hide IsHttp;
    HasEquals(t);
    var n := Span(NotEquals, t);
    var k := t[..n];
    var u := KeyPart(t) + v;
    assert u == k + ("=" + v) && u[n] == '=' && t[n] == '=';
    assert u[..n] == t[..n];
    if IsHttp(u) { HttpBeforeEquals(u, t, n); }
    hide All;
    CutAt(NotEquals, k, "=" + v);
    assert ("=" + v)[1..] == v;
  }

  /** A token left as it is by lower-casing, percent escapes and all. */
  predicate IsInert(t: string) { All(NotSpace, t) && LowerToken(t) == t }

  /** A token whose lower-casing can be followed: nothing to decode, or nothing to change. */
  predicate IsSmooth(t: string) { All(IsPlain, t) || IsInert(t) }

  predicate IsSettledToken(t: string) {
    (All(IsPlain, t) && IsSettledValue(ValuePart(t))) || IsInert(t)
  }

  lemma KeyBoundary(t: string)
    ensures KeyPart(t) == "" || !IsWord(KeyPart(t)[|KeyPart(t)| - 1])
  {
    hide IsHttp;
  }

  lemma LowerTokenPlain(t: string)
    requires All(IsPlain, t)
    ensures All(IsPlain, LowerToken(t))
    ensures MentionsCdrom(LowerToken(t)) <==> MentionsCdrom(t)
  {
    TokenParts(t);
    LowerTokenParts(t);
    KeyBoundary(t);
    hide All, KeyPart, ValuePart, LowerToken, LowerIfPathLike, MentionsCdrom;
    LowerIfPathLikePlain(ValuePart(t));
    MentionsConcat(KeyPart(t), ValuePart(t));
    MentionsConcat(KeyPart(t), LowerIfPathLike(ValuePart(t)));
    AllConcat(IsPlain, KeyPart(t), LowerIfPathLike(ValuePart(t)));
  }

  /** Lower-casing a token again changes nothing, exactly when the first pass brings no URL
      to light whose parameter, query or fragment mark is empty. */
  lemma LowerTokenTwice(t: string)
    requires All(IsPlain, t)
    ensures LowerToken(LowerToken(t)) == LowerToken(t) <==>
            (HidesUrl(ValuePart(t)) ==> Complete(LowerRel(ValuePart(t))))
  {
    TokenParts(t);
    LowerTokenParts(t);
    LowerTokenPlain(t);
    hide All, IsHttp, LowerToken, LowerIfPathLike, MentionsCdrom, HidesUrl, Complete;
    var v := LowerIfPathLike(ValuePart(t));
    LowerIfPathLikePlain(ValuePart(t));
    LowerIfPathLikeTwice(ValuePart(t));
    LowerTokenParts(LowerToken(t));
    if KeyPart(t) != "" {
      SameKey(t, v);
      SameText(KeyPart(t), LowerIfPathLike(v), v);
    } else {
      assert LowerToken(t) == v && KeyPart(v) == "";
    }
  }

  lemma PlainNoSpace(t: string)
    requires All(IsPlain, t)
    ensures All(NotSpace, t)
  {
    assert forall i :: 0 <= i < |t| ==> IsPlain(t[i]);
  }

  lemma SmoothNoSpace(t: string)
    requires IsSmooth(t)
    ensures All(NotSpace, t)
  {
    hide LowerToken;
    if All(IsPlain, t) { PlainNoSpace(t); }
  }

  lemma LowerTokenSmooth(t: string)
    requires IsSmooth(t)
    ensures IsSmooth(LowerToken(t))
    ensures MentionsCdrom(LowerToken(t)) <==> MentionsCdrom(t)
  {
    hide LowerToken, MentionsCdrom, All;
    if All(IsPlain, t) { LowerTokenPlain(t); }
  }

  /** The same for every such token. */
  lemma SmoothTwice(t: string)
    requires IsSmooth(t)
    ensures LowerToken(LowerToken(t)) == LowerToken(t) <==> IsSettledToken(t)
  {
    hide LowerToken, HidesUrl, Complete, ValuePart, All;
    if All(IsPlain, t) { LowerTokenTwice(t); }
  }

  // ---- A hidden URL -----------------------------------------------------

  const SHOWN := "http://" + "h/p?"

  lemma ShownChars()
    ensures |SHOWN| == 11 && IsLowered(SHOWN) && Slashed(SHOWN) == SHOWN && All(NotSpace, SHOWN)
    ensures SHOWN[0] == 'h' && SHOWN[10] == '?' && SHOWN[5] == '/' && SHOWN[..7] == "http://" && '=' !in SHOWN
  {
  }

  lemma AfterSlash(x: string)
    requires x != "" && IsLowered(x) && Slashed(x) == x && All(NotSpace, x) && Bare(IsSlash, x) && '=' !in x
    ensures LowerToken("/" + x) == x
  {
    var t := "/" + x;
    assert All(NotSpace, t) && Slashed(t) == t && '=' !in t && '/' in t;
    assert !IsSpace(x[|x| - 1]) && Trimmed(t);
    assert Lower(t)[0] == '/' && !IsHttp(t);
    assert All(IsSlash, "/") && All(IsSlash, "");
    assert t + "" == t;
    hide All;
    TrimBare(IsSpace, t);
    TrimPadded(IsSlash, "/", x, "");
  }

  lemma RestParts()
    ensures Before(NotNetEnd, "h/p?") == "h" && TailOf("h/p?") == "/p?"
  {
    assert Span(NotNetEnd, "h/p?"[1..]) == 0;
  }

  lemma TailParts()
    ensures Before(NotHash, "/p?") == "/p?" && After(NotHash, "/p?") == ""
    ensures Before(NotQuestion, "/p?") == "/p" && After(NotQuestion, "/p?") == ""
  {
    assert "/p?" + "" == "/p?" && "/p?" == "/p" + "?";
    assert All(NotHash, "/p?") && All(NotQuestion, "/p");
    SpanOf(NotHash, "/p?", "");
    SpanOf(NotQuestion, "/p", "?");
  }

  lemma PathParts()
    ensures PathOf("/p") == "/p" && ParamsOf("/p") == "" && Unquote("/p") == "/p" && Lower("/p") == "/p"
  {
    assert All(NotSlash, "p") && "/p" == "/" + "p";
    KeptOf(NotSlash, "/", "p");
    assert "p" + "" == "p" && All(NotSemicolon, "p");
    SpanOf(NotSemicolon, "p", "");
    assert "/p"[1..] == "p" && "p"[1..] == "";
  }

  lemma ShownParsed()
    ensures IsHttp(SHOWN) && ParseUrl(SHOWN) == Parts("http", "h", "/p", "", "", "")
  {
    ShownChars();
    assert Lower(SHOWN) == SHOWN && SHOWN[7..] == "h/p?";
    hide SHOWN, Before, After, TailOf, PathOf, ParamsOf;
    RestParts();
    TailParts();
    PathParts();
  }

  /** Lower-casing a token twice can differ from lower-casing it once: the first pass uncovers
      a URL behind a slash, the second drops its empty query. */
  lemma HiddenUrlDiffers()
    ensures LowerToken("/" + SHOWN) == SHOWN && LowerToken(SHOWN) != SHOWN
  {
    ShownChars();
    ShownParsed();
    PathParts();
    hide SHOWN, Unquote, ParseUrl, IsHttp;
    AfterSlash(SHOWN);
    assert Trimmed(SHOWN);
    TrimBare(IsSpace, SHOWN);
    hide Trim, All;
    assert |LowerUrlPath(SHOWN)| == 10 by { ShownLowered(); }
  }

  lemma ShownLowered()
    requires IsHttp(SHOWN)
    ensures |LowerUrlPath(SHOWN)| == 10
  {
    ShownParsed();
    PathParts();
    hide SHOWN, Unquote, ParseUrl, IsHttp;
    assert "/p"[0] == '/' && |"http"| == 4 && |"://"| == 3;
  }
}
