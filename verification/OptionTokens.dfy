/** The kernel options token by token: what the network form keeps, what it lower-cases and
    what it puts in front; and what an activation writes. */
module OptionTokens {
  import opened Text
  import opened Url
  import opened Kernelopt
  import opened KerneloptTwice
  import opened Kickstart
  import opened KickstartLaws
  import opened NetworkLaws

  // ---- Percent escapes --------------------------------------------------

  /** A character as a percent escape, its digits in either case. */
  predicate Escapes(e: string, c: char) {
    && |e| == 3 && e[0] == '%' && IsDigitOf(e[1], c as int / 16) && IsDigitOf(e[2], c as int % 16)
  }

  predicate IsDigitOf(d: char, n: int) {
    if 0 <= n < 10 then d as int == 48 + n
    else 10 <= n < 16 && (d as int == 55 + n || d as int == 87 + n)
  }

  /** Decoding goes from left to right: an escape gives its character, any other is kept. */
  lemma UnquoteStep(e: string, c: char, rest: string)
    ensures c != '%' ==> Unquote([c] + rest) == [c] + Unquote(rest)
    ensures Escapes(e, c) && (c as int) < 128 ==> Unquote(e + rest) == [c] + Unquote(rest)
  {
    assert ([c] + rest)[1..] == rest;
    if Escapes(e, c) && (c as int) < 128 {
      var s := e + rest;
      assert s[0] == e[0] && s[1] == e[1] && s[2] == e[2] && s[3..] == rest;
      assert HexValue(e[1]) == c as int / 16 && HexValue(e[2]) == c as int % 16;
    }
  }

  // ---- One token --------------------------------------------------------

  /** A web address keeps its server, parameters, query and fragment; its path is lower-cased. */
  lemma UrlLowered(c: Parts)
    requires WellFormed(c) && !BadNetloc(c.netloc) && All(NotPercent, c.path) && c.path != ""
    ensures IsHttp(Unparse(c))
    ensures LowerUrlPath(Unparse(c)) ==
            c.scheme + "://" + (c.netloc + (Lower(c.path) + Tagged(";", c.params) + Tagged("?", c.query)
                                            + Tagged("#", c.fragment)))
  {
    ParseUnparse(c);
    UnquotePlain(c.path);
    assert '/' in c.path by { assert c.path[0] == '/'; }
    hide WellFormed, ParseUrl, Unquote, IsHttp, All, Lower, BadNetloc;
    var d := c.(path := Lower(c.path));
    assert LowerUrlPath(Unparse(c)) == Unparse(d);
  }

  lemma TokenStripped(t: string)
    requires All(NotSpace, t)
    ensures Strip(t) == t
  {
    assert Trimmed(t) by { if t != "" { assert NotSpace(t[0]) && NotSpace(t[|t| - 1]); } }
    hide All;
    TrimBare(IsSpace, t);
  }

  lemma HttpHasSlash(t: string)
    requires IsHttp(t)
    ensures '/' in t
  {
    assert "http://"[6] == '/' && "https://"[7] == '/';
    if StartsWith(Lower(t), "http://") {
      assert Lower(t)[..7][6] == Lower(t)[6] == LowerChar(t[6]);
      assert t[6] == '/';
    } else {
      assert Lower(t)[..8][7] == Lower(t)[7] == LowerChar(t[7]);
      assert t[7] == '/';
    }
  }

  lemma NoSlashStays(v: string)
    requires '/' !in v && '\\' !in v && All(NotSpace, v)
    ensures LowerIfPathLike(v) == v
  {
    TokenStripped(v);
    assert '/' !in Slashed(v);
    hide All, Lower, Strip;
    if IsHttp(v) { HttpHasSlash(v); }
  }

  /** The value of a token with a key is treated on its own. */
  lemma ValueTreated(key: string, v: string)
    requires All(NotEquals, key) && All(NotSpace, key) && All(NotSpace, v) && !IsHttp(key + ("=" + v))
    ensures LowerToken(key + ("=" + v)) == key + "=" + LowerIfPathLike(v)
  {
    assert All(NotSpace, "=");
    hide All, IsHttp, LowerIfPathLike, Strip;
    AllConcat(NotSpace, "=", v);
    AllConcat(NotSpace, key, "=" + v);
    TokenStripped(key + ("=" + v));
    CutAt(NotEquals, key, "=" + v);
    EqualsInside(key, v);
    assert ("=" + v)[1..] == v;
  }

  lemma CutToken(t: string) returns (key: string, v: string)
    requires IsToken(t) && '=' in t
    ensures t == key + ("=" + v) && All(NotEquals, key) && All(NotSpace, key) && All(NotSpace, v)
    ensures '/' !in t && '\\' !in t ==> '/' !in v && '\\' !in v
  {
    var n := Span(NotEquals, t);
    HasEquals(t);
    key, v := t[..n], t[n + 1..];
    hide Span;
    Parted(t, n);
    assert t[n..] == "=" + v;
    AllConcat(NotSpace, key, t[n..]);
    AllConcat(NotSpace, "=", v);
  }

  /** A token without slashes stays as it is, capitals included. */
  lemma PlainTokenStays(t: string)
    requires IsToken(t) && '/' !in t && '\\' !in t
    ensures LowerToken(t) == t
  {
    TokenStripped(t);
    if IsHttp(t) { HttpHasSlash(t); }
    if '=' in t {
      var key, v := CutToken(t);
      hide All, IsHttp, LowerToken;
      NoSlashStays(v);
      ValueTreated(key, v);
      Assoc(key, "=", v);
    } else {
      hide All, IsHttp;
      NoSlashStays(t);
    }
  }

  /** A path loses the slashes around it and is lower-cased; a key in front of it stays. */
  lemma PathTokenLowered(key: string, a: string, m: string, b: string)
    requires All(NotEquals, key) && All(NotSpace, key) && All(IsSlash, a) && All(IsSlash, b) && Bare(IsSlash, m)
    requires All(NotSpace, m) && All(NotBackslash, m) && '/' in a + m + b
    requires !IsHttp(a + m + b) && !IsHttp(key + ("=" + (a + m + b)))
    ensures LowerIfPathLike(a + m + b) == Lower(m)
    ensures LowerToken(key + ("=" + (a + m + b))) == key + "=" + Lower(m)
  {
    hide All, IsHttp, Lower, LowerIfPathLike, Bare, LowerToken;
    PathLowered(a, m, b);
    PathWord(a, m, b);
    ValueTreated(key, a + m + b);
  }

  lemma EqualsInside(key: string, path: string)
    ensures '=' in key + ("=" + path)
  {
    assert (key + ("=" + path))[|key|] == '=';
  }

  lemma PathWord(a: string, m: string, b: string)
    requires All(IsSlash, a) && All(IsSlash, b) && All(NotSpace, m)
    ensures All(NotSpace, a + m + b)
  {
    assert forall i :: 0 <= i < |a| ==> IsSlash(a[i]);
    assert forall i :: 0 <= i < |b| ==> IsSlash(b[i]);
    assert All(NotSpace, a) && All(NotSpace, b);
    hide All;
    AllConcat(NotSpace, a + m, b);
    AllConcat(NotSpace, a, m);
  }

  lemma PathLowered(a: string, m: string, b: string)
    requires All(IsSlash, a) && All(IsSlash, b) && Bare(IsSlash, m)
    requires All(NotSpace, m) && All(NotBackslash, m) && '/' in a + m + b && !IsHttp(a + m + b)
    ensures LowerIfPathLike(a + m + b) == Lower(m)
  {
    var path := a + m + b;
    PathWord(a, m, b);
    NoMarks(a, m, b);
    hide All, IsHttp, Lower, Bare, Slashed;
    TokenStripped(path);
    TrimPadded(IsSlash, a, m, b);
  }

  lemma NoMarks(a: string, m: string, b: string)
    requires All(IsSlash, a) && All(IsSlash, b) && All(NotBackslash, m)
    ensures Slashed(a + m + b) == a + m + b
  {
    var path := a + m + b;
    assert forall i :: 0 <= i < |a| ==> IsSlash(a[i]);
    assert forall i :: 0 <= i < |b| ==> IsSlash(b[i]);
    assert forall i :: 0 <= i < |m| ==> NotBackslash(m[i]);
    assert forall i :: 0 <= i < |path| ==>
      path[i] == if i < |a| then a[i] else if i < |a| + |m| then m[i - |a|] else b[i - |a| - |m|];
  }

  // ---- The word cdromBoot -----------------------------------------------

  lemma WithoutWord(word: string, rest: string)
    requires word != "" && All(IsWord, word) && (rest != "" ==> !IsWord(rest[0]))
    ensures WithoutCdrom(word + rest) == (if Lower(word) == "cdromboot" then "" else word) + WithoutCdrom(rest)
  {
    assert IsWord(word[0]);
    hide All, Lower;
    SpanOf(IsWord, word, rest);
    assert (word + rest)[..|word|] == word && (word + rest)[|word|..] == rest;
  }

  lemma WithoutChar(c: char, rest: string)
    requires !IsWord(c)
    ensures WithoutCdrom([c] + rest) == [c] + WithoutCdrom(rest)
  {
    assert ([c] + rest)[1..] == rest;
  }

  lemma FirstWord(a: string) returns (word: string, rest: string)
    requires a != "" && IsWord(a[0])
    ensures a == word + rest && word != "" && All(IsWord, word) && (rest != "" ==> !IsWord(rest[0]))
  {
    var n := Span(IsWord, a);
    word, rest := a[..n], a[n..];
  }

  /** Removing the word on both sides of a boundary is removing it everywhere. */
  lemma {:induction false} WithoutConcat(a: string, b: string)
    requires a == "" || b == "" || !IsWord(a[|a| - 1]) || !IsWord(b[0])
    ensures WithoutCdrom(a + b) == WithoutCdrom(a) + WithoutCdrom(b)
    decreases |a|
  {
    if a == "" {
      assert a + b == b;
    } else if IsWord(a[0]) {
      var word, rest := FirstWord(a);
      hide All, WithoutCdrom, Lower, IsWord;
      WithoutConcat(rest, b);
      WithoutWord(word, rest);
      WithoutWord(word, rest + b);
      Assoc(word, rest, b);
      Assoc(if Lower(word) == "cdromboot" then "" else word, WithoutCdrom(rest), WithoutCdrom(b));
    } else {
      var c, rest := a[0], a[1..];
      assert a == [c] + rest;
      hide WithoutCdrom, IsWord;
      WithoutConcat(rest, b);
      WithoutChar(c, rest);
      WithoutChar(c, rest + b);
      Assoc([c], rest, b);
      Assoc([c], WithoutCdrom(rest), WithoutCdrom(b));
    }
  }

  /** Tokens that are not the word itself. */
  function Kept(ts: seq<string>): seq<string> {
    if ts == [] then [] else (if Lower(ts[0]) == "cdromboot" then [] else [ts[0]]) + Kept(ts[1..])
  }

  /** A token that is the word, or one that has it nowhere inside. */
  predicate IsClear(t: string) { Lower(t) == "cdromboot" || !MentionsCdrom(t) }

  predicate AreClear(ts: seq<string>) { forall i :: 0 <= i < |ts| ==> IsToken(ts[i]) && IsClear(ts[i]) }

  lemma WithoutToken(t: string)
    requires IsToken(t) && IsClear(t)
    ensures Tokens(WithoutCdrom(t)) == if Lower(t) == "cdromboot" then [] else [t]
  {
    if Lower(t) == "cdromboot" {
      CdromWord(t);
      TokensOfSpaces("");
    } else {
      hide MentionsCdrom, WithoutCdrom;
      WithoutNone(t);
      TokensOfToken(t);
    }
  }

  lemma CdromWord(t: string)
    requires Lower(t) == "cdromboot"
    ensures WithoutCdrom(t) == ""
  {
    CdromLetters(t);
    assert t + "" == t;
    hide Lower, All;
    WithoutWord(t, "");
  }

  lemma CdromLetters(t: string)
    requires Lower(t) == "cdromboot"
    ensures t != "" && All(IsWord, t)
  {
    var low := "cdromboot";
    assert |low| == 9 && forall i :: 0 <= i < 9 ==> 'a' <= low[i] <= 'z';
    forall i | 0 <= i < |t| ensures IsWord(t[i]) { assert Lower(t)[i] == LowerChar(t[i]) == low[i]; }
  }

  lemma {:induction false} WithoutTokens(ts: seq<string>)
    requires AreClear(ts)
    ensures Tokens(WithoutCdrom(Join(" ", ts))) == Kept(ts)
  {
    if ts == [] {
      assert WithoutCdrom("") == "";
      TokensOfSpaces("");
    } else {
      var t, rest := ts[0], ts[1..];
      assert IsToken(t) && IsClear(t) && AreClear(rest);
      SpaceIsSpace();
      WithoutToken(t);
      assert WithoutCdrom(" ") == " " by { assert " "[1..] == "" && WithoutCdrom("") == ""; }
      hide MentionsCdrom, WithoutCdrom, Tokens, IsToken, IsClear, AreClear, Lower, All, IsSpace;
      if rest == [] {
        assert Kept(rest) == [] && Tokens(WithoutCdrom(t)) + [] == Tokens(WithoutCdrom(t));
      } else {
        var more := Join(" ", rest);
        WithoutTokens(rest);
        Assoc(t, " ", more);
        WithoutConcat(t, " " + more);
        WithoutConcat(" ", more);
        TokensConcat(WithoutCdrom(t), " " + WithoutCdrom(more));
        TokensSkip(" ", WithoutCdrom(more));
      }
    }
  }

  /** The network form of options: without `cdromBoot`, every token lower-cased where it is a path
      or a web address, in order, and `runweasel` in front unless it is there. */
  lemma NormalizedTokens(ts: seq<string>)
    requires AreClear(ts) && AreTokens(LowerTokens(Kept(ts)))
    ensures
      var own := LowerTokens(Kept(ts));
      Tokens(Normalize(Join(" ", ts))) ==
      (if exists i :: 0 <= i < |own| && Lower(own[i]) == "runweasel" then [] else ["runweasel"]) + own
  {
    hide AreClear, Tokens, AreTokens, Lower, WithoutCdrom, Kept, LowerToken;
    var own := LowerTokens(Kept(ts));
    WithoutTokens(ts);
    TokensOfJoin(own);
    TokensOfJoin(NetworkTokens(Join(" ", ts)));
    assert [] + own == own;
  }

  // ---- Activation -------------------------------------------------------

  /** Tokens an activation keeps. */
  predicate Stays(t: string) {
    Lower(t) != "cdromboot" && !(|t| >= 3 && Lower(t)[..3] == "ks=")
  }

  function Staying(ts: seq<string>): seq<string> {
    if ts == [] then [] else (if Stays(ts[0]) then [ts[0]] else []) + Staying(ts[1..])
  }

  lemma {:induction false} KeepIsStaying(ts: seq<string>)
    ensures Keep(ts) == Staying(ts)
  {
    if ts != [] {
      KeepIsStaying(ts[1..]);
      hide Lower;
      assert IsDropped(ts[0]) <==> !Stays(ts[0]);
    }
  }

  /** What an activation writes: `runweasel` in front unless it is there, the tokens that stay in
      their order, and the new address last; without an address, none. */
  lemma MergedTokensAre(existing: string, ks: string)
    requires All(NotSpace, ks)
    ensures
      var own := Staying(Tokens(existing));
      Tokens(Merge(existing, ks)) ==
      (if exists i :: 0 <= i < |own| && Lower(own[i]) == "runweasel" then [] else ["runweasel"])
      + own
      + (if ks == "" then [] else ["ks=" + ks])
  {
    var own := Staying(Tokens(existing));
    TokensOfMerge(existing, ks);
    KeepIsStaying(Tokens(existing));
    KsWord(ks);
    hide Tokens, Lower, All, Staying, Merge, IsToken;
    TokensOfToken("ks=" + ks);
    assert [] + own == own;
  }

  lemma KsWord(ks: string)
    requires All(NotSpace, ks)
    ensures IsToken("ks=" + ks)
  {
    assert All(NotSpace, "ks=");
    hide All;
    AllConcat(NotSpace, "ks=", ks);
  }
}
