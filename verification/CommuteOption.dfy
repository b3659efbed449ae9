/** On one `kernelopt` value: replacing the kickstart token and normalising for the
    network commute, exactly when the new token is already lower-cased. */
module CommuteOption {
  import opened Text
  import opened Url
  import opened ConfigLine
  import opened Kernelopt
  import opened KerneloptWords
  import opened KerneloptTwice
  import opened Kickstart
  import opened KickstartLaws
  import opened NetworkLaws

  /** A token both rewrites see the same way, before and after lower-casing: nothing to decode
      in it or nothing to change, with `cdromBoot` only as the whole token, and not a slashed
      spelling of runweasel. */
  predicate IsSteady(t: string) {
    && IsSmooth(t)
    && (MentionsCdrom(t) ==> IsCdrom(t))
    && (IsRunweasel(LowerToken(t)) ==> IsRunweasel(t))
  }

  predicate AreSteady(ts: seq<string>) {
    forall i :: 0 <= i < |ts| ==> IsSteady(ts[i])
  }

  predicate SteadyOption(kopt: string) { AreSteady(Tokens(kopt)) }

  /** A kickstart URL both rewrites accept: one word, with nothing to decode or nothing to
      change. */
  predicate SteadyUrl(ks: string) {
    && (All(IsPlain, ks) || (All(NotSpace, ks) && LowerIfPathLike(ks) == ks))
    && !MentionsCdrom(ks)
  }

  /** The URL survives lower-casing: its path has no capital letter, among others. */
  predicate LoweredUrl(ks: string) { ks == "" || LowerToken("ks=" + ks) == "ks=" + ks }

  // ---- Dropping cdromBoot, token by token -------------------------------

  function DropCdrom(ts: seq<string>): seq<string> {
    if ts == [] then []
    else if IsCdrom(ts[0]) then DropCdrom(ts[1..])
    else [ts[0]] + DropCdrom(ts[1..])
  }

  lemma WithoutWord(word: string, rest: string)
    requires word != "" && All(IsWord, word) && (rest != "" ==> !IsWord(rest[0]))
    ensures WithoutCdrom(word + rest) ==
            (if Lower(word) == "cdromboot" then "" else word) + WithoutCdrom(rest)
  {
    assert IsWord(word[0]);
    hide All, IsWord, Lower;
    SpanOf(IsWord, word, rest);
    assert (word + rest)[..|word|] == word && (word + rest)[|word|..] == rest;
  }

  lemma WithoutOther(c: char, rest: string)
    requires !IsWord(c)
    ensures WithoutCdrom([c] + rest) == [c] + WithoutCdrom(rest)
  {
    hide IsWord;
    assert ([c] + rest)[1..] == rest;
  }

  /** The first word of a text, or its first other character, and the rest. */
  lemma FirstPiece(a: string) returns (piece: string, tail: string)
    requires a != ""
    ensures a == piece + tail && piece != ""
    ensures if IsWord(a[0]) then All(IsWord, piece) && (tail != "" ==> !IsWord(tail[0]))
            else piece == [a[0]]
  {
    if IsWord(a[0]) {
      var n := Span(IsWord, a);
      piece, tail := a[..n], a[n..];
    } else {
      piece, tail := [a[0]], a[1..];
    }
  }

  lemma LastOf(a: string, piece: string, tail: string, b: string)
    requires a == piece + tail && piece != ""
    requires b == "" || !IsWord(a[|a| - 1]) || !IsWord(b[0])
    ensures tail == "" || b == "" || !IsWord(tail[|tail| - 1]) || !IsWord(b[0])
    ensures All(IsWord, piece) && (tail != "" ==> !IsWord(tail[0])) ==>
            (tail + b != "" ==> !IsWord((tail + b)[0]))
  {
    if tail == "" { assert piece[|piece| - 1] == a[|a| - 1]; }
  }

  lemma {:induction false} WithoutConcat(a: string, b: string)
    requires a == "" || b == "" || !IsWord(a[|a| - 1]) || !IsWord(b[0])
    ensures WithoutCdrom(a + b) == WithoutCdrom(a) + WithoutCdrom(b)
    decreases |a|
  {
    if a == "" {
      assert a + b == b;
    } else {
      var piece, tail := FirstPiece(a);
      LastOf(a, piece, tail, b);
      hide IsWord, Lower, All, WithoutCdrom;
      WithoutConcat(tail, b);
      Assoc(piece, tail, b);
      var left := if !IsWord(a[0]) then [a[0]]
                  else if Lower(piece) == "cdromboot" then "" else piece;
      if IsWord(a[0]) {
        WithoutWord(piece, tail + b);
        WithoutWord(piece, tail);
      } else {
        WithoutOther(a[0], tail + b);
        WithoutOther(a[0], tail);
      }
      Assoc(left, WithoutCdrom(tail), WithoutCdrom(b));
    }
  }

  lemma {:induction false} WithoutNonWords(s: string)
    requires forall i :: 0 <= i < |s| ==> !IsWord(s[i])
    ensures WithoutCdrom(s) == s
  {
    hide IsWord;
    if s != "" {
      WithoutNonWords(s[1..]);
      assert s == [s[0]] + s[1..];
    }
  }

  lemma CdromChars(t: string)
    requires IsCdrom(t)
    ensures All(IsWord, t) && t != ""
  {
    assert forall i :: 0 <= i < |t| ==> 'a' <= "cdromboot"[i] <= 'z';
    assert forall i :: 0 <= i < |t| ==> LowerChar(t[i]) == "cdromboot"[i];
  }

  lemma WithoutToken(t: string)
    requires IsSteady(t)
    ensures WithoutCdrom(t) == if IsCdrom(t) then "" else t
  {
    hide MentionsCdrom, LowerToken, Lower;
    if IsCdrom(t) {
      CdromChars(t);
      hide All, IsWord;
      WithoutWord(t, "");
      assert t + "" == t;
    } else {
      WithoutNone(t);
    }
  }

  lemma WithoutSpaceHead(rest: string)
    requires rest != "" ==> IsSpace(rest[0])
    ensures WithoutCdrom(rest) != "" ==> IsSpace(WithoutCdrom(rest)[0])
  {
    if rest != "" { WithoutHead(rest); }
  }

  lemma WithoutParts(gap: string, word: string, rest: string)
    requires All(IsSpace, gap) && (rest != "" ==> IsSpace(rest[0]))
    ensures WithoutCdrom(gap + (word + rest)) == gap + (WithoutCdrom(word) + WithoutCdrom(rest))
  {
    SpacesNoWord(gap);
    SpaceNoWord(rest);
    hide WithoutCdrom, All, IsSpace, IsWord;
    WithoutConcat(gap, word + rest);
    WithoutNonWords(gap);
    WithoutConcat(word, rest);
  }

  lemma {:induction false} WithoutTokens(s: string)
    requires SteadyOption(s)
    ensures Tokens(WithoutCdrom(s)) == DropCdrom(Tokens(s))
    decreases |s|
  {
    hide Tokens, AreTokens, All, IsSpace, WithoutCdrom, IsSteady, IsCdrom, IsToken;
    if All(IsSpace, s) {
      TokensOfSpaces(s);
      WithoutSpaces(s);
    } else {
      var gap, word, rest := FirstToken(s);
      assert |word| > 0 by { TokenNotEmpty(word); }
      TokensSkip(gap, word + rest);
      TokensHead(word, rest);
      var ts := Tokens(s);
      assert ts == [word] + Tokens(rest) && ts[0] == word && ts[1..] == Tokens(rest);
      assert IsSteady(ts[0]);
      assert forall i :: 0 <= i < |Tokens(rest)| ==> Tokens(rest)[i] == ts[i + 1];
      WithoutTokens(rest);
      WithoutParts(gap, word, rest);
      WithoutToken(word);
      WithoutSpaceHead(rest);
      TokensSkip(gap, WithoutCdrom(word) + WithoutCdrom(rest));
      if IsCdrom(word) {
        assert "" + WithoutCdrom(rest) == WithoutCdrom(rest);
      } else {
        TokensHead(word, WithoutCdrom(rest));
      }
    }
  }

  lemma TokenNotEmpty(t: string)
    requires IsToken(t)
    ensures |t| > 0
  {
  }

  lemma WithoutSpaces(s: string)
    requires All(IsSpace, s)
    ensures WithoutCdrom(s) == s
  {
    SpacesNoWord(s);
    WithoutNonWords(s);
  }

  // ---- One token --------------------------------------------------------

  lemma KsHasEquals(t: string)
    requires IsKs(t)
    ensures |t| >= 3 && t[2] == '=' && '=' in t && !IsHttp(t)
    ensures t[0] != '=' && t[1] != '='
  {
    var l := Lower(t);
    assert l[..3][0] == 'k' && l[..3][1] == 's' && l[..3][2] == '=';
    assert l[0] == 'k' && l[1] == 's' && l[2] == '=';
    assert t[2] == '=' && t[0] != '=' && t[1] != '=';
    assert "http://"[0] == 'h' && "https://"[0] == 'h';
  }

  /** The `ks=` tokens are told by their key, which lower-casing the value keeps. */
  lemma SameKsKey(t: string, x: string)
    requires |KeyPart(t)| >= 3 && t == KeyPart(t) + ValuePart(t)
    ensures IsKs(KeyPart(t) + x) <==> IsKs(t)
  {
    hide KeyPart, ValuePart;
    var k := KeyPart(t);
    assert (k + x)[..3] == k[..3] == t[..3];
    LowerPrefix(k + x, 3);
    LowerPrefix(t, 3);
  }

  lemma KeyEndsInEquals(t: string)
    requires KeyPart(t) != ""
    ensures KeyPart(t)[|KeyPart(t)| - 1] == '=' && '=' in t && !IsHttp(t)
  {
    hide IsHttp;
  }

  lemma ShortKeyNotKs(key: string, x: string)
    requires key != "" && |key| < 3 && key[|key| - 1] == '='
    ensures !IsKs(key + x)
  {
    var t := key + x;
    assert t[|key| - 1] == '=';
    if IsKs(t) { KsHasEquals(t); }
  }

  lemma LowerKeepsKs(t: string)
    requires IsSmooth(t)
    ensures IsKs(LowerToken(t)) <==> IsKs(t)
  {
    hide LowerToken, IsKs, All;
    if All(IsPlain, t) { LowerKeepsKsPlain(t); }
  }

  lemma LowerKeepsKsPlain(t: string)
    requires All(IsPlain, t)
    ensures IsKs(LowerToken(t)) <==> IsKs(t)
  {
    TokenParts(t);
    LowerTokenParts(t);
    LowerIfPathLikePlain(ValuePart(t));
    hide All, LowerToken, LowerIfPathLike, MentionsCdrom, IsKs, IsHttp;
    var v := LowerIfPathLike(ValuePart(t));
    var key := KeyPart(t);
    if |key| >= 3 {
      hide KeyPart, ValuePart;
      SameKsKey(t, v);
    } else if key != "" {
      KeyEndsInEquals(t);
      hide KeyPart, ValuePart;
      ShortKeyNotKs(key, v);
      ShortKeyNotKs(key, ValuePart(t));
    } else {
      assert LowerToken(t) == v;
      if IsKs(t) { KsHasEquals(t); }
      if IsKs(v) { KsHasEquals(v); }
    }
  }

  lemma LowerKeepsDropped(t: string)
    requires IsSteady(t)
    ensures IsDropped(LowerToken(t)) <==> IsKs(t) || (IsCdrom(t) && IsDropped(LowerToken(t)))
    ensures IsKs(t) ==> LowerToken(t) != ""
  {
    LowerKeepsKs(t);
    LowerTokenSmooth(t);
    hide IsSmooth, LowerToken, IsKs, Lower, MentionsCdrom;
    if IsKs(LowerToken(t)) { KsHasEquals(LowerToken(t)); }
    if IsCdrom(LowerToken(t)) { CdromMentions(LowerToken(t)); }
  }

  lemma CdromMentions(t: string)
    requires IsCdrom(t)
    ensures MentionsCdrom(t)
  {
    CdromChars(t);
    WordAlone(t);
  }

  // ---- Lists of tokens --------------------------------------------------

  /** Lower-casing the tokens left after cdromBoot, dropping empty results. */
  function Lowered(ts: seq<string>): seq<string> { NonEmpty(LowerTokens(ts)) }

  lemma LoweredCons(t: string, ts: seq<string>)
    ensures Lowered([t] + ts) ==
            if LowerToken(t) == "" then Lowered(ts) else [LowerToken(t)] + Lowered(ts)
  {
    hide LowerToken;
    var all := LowerTokens([t] + ts);
    assert all[0] == LowerToken(t) && all[1..] == LowerTokens(ts);
  }

  lemma {:induction false} LoweredConcat(a: seq<string>, b: seq<string>)
    ensures Lowered(a + b) == Lowered(a) + Lowered(b)
  {
    hide Lowered, LowerToken;
    if a == [] {
      assert a + b == b;
      LoweredEmpty();
    } else {
      var t, rest := a[0], a[1..];
      assert a == [t] + rest;
      Assoc([t], rest, b);
      LoweredCons(t, rest + b);
      LoweredCons(t, rest);
      LoweredConcat(rest, b);
      Assoc([LowerToken(t)], Lowered(rest), Lowered(b));
    }
  }

  lemma LoweredEmpty()
    ensures Lowered([]) == []
  {
  }

  lemma KeepLoweredCons(t: string, rest: seq<string>)
    requires !IsCdrom(t) && (IsDropped(LowerToken(t)) <==> IsKs(t))
    requires IsKs(t) ==> LowerToken(t) != ""
    requires Keep(Lowered(DropCdrom(rest))) == Lowered(Keep(rest))
    ensures Keep(Lowered(DropCdrom([t] + rest))) == Lowered(Keep([t] + rest))
  {
    assert ([t] + rest)[1..] == rest;
    hide IsKs, IsCdrom, LowerToken, Lowered, Lower;
    var low := Lowered(DropCdrom(rest));
    LoweredCons(t, DropCdrom(rest));
    KeepCons(LowerToken(t), low);
    LoweredCons(t, Keep(rest));
  }

  lemma SteadyCons(ts: seq<string>)
    requires AreSteady(ts) && ts != []
    ensures ts == [ts[0]] + ts[1..] && IsSteady(ts[0]) && AreSteady(ts[1..])
  {
    hide IsSteady;
  }

  /** Dropping and lower-casing can be exchanged. */
  lemma {:induction false} KeepLowered(ts: seq<string>)
    requires AreSteady(ts)
    ensures Keep(Lowered(DropCdrom(ts))) == Lowered(Keep(ts))
  {
    if ts == [] {
      LoweredEmpty();
    } else {
      hide IsSteady, AreSteady, Lowered, IsKs, IsCdrom, LowerToken;
      var t, rest := ts[0], ts[1..];
      SteadyCons(ts);
      KeepLowered(rest);
      if !IsCdrom(t) {
        LowerKeepsDropped(t);
        hide IsDropped, DropCdrom, Keep;
        KeepLoweredCons(t, rest);
      }
    }
  }

  lemma KeepCons(t: string, ts: seq<string>)
    ensures Keep([t] + ts) == if IsDropped(t) then Keep(ts) else [t] + Keep(ts)
  {
    hide IsDropped;
    assert ([t] + ts)[1..] == ts;
  }

  lemma {:induction false} InKeep(ts: seq<string>, i: nat) returns (j: nat)
    requires i < |Keep(ts)|
    ensures j < |ts| && Keep(ts)[i] == ts[j]
  {
    hide IsDropped;
    if IsDropped(ts[0]) {
      j := InKeep(ts[1..], i);
      j := j + 1;
    } else if i == 0 {
      j := 0;
    } else {
      j := InKeep(ts[1..], i - 1);
      j := j + 1;
    }
  }

  lemma {:induction false} KeepHasRunweasel(ts: seq<string>)
    ensures HasRunweasel(Keep(ts)) <==> HasRunweasel(ts)
  {
    if ts != [] {
      KeepHasRunweasel(ts[1..]);
      if IsRunweasel(ts[0]) { RunweaselNotDropped(ts[0]); }
      hide IsRunweasel, IsDropped, HasRunweasel;
      assert ts == [ts[0]] + ts[1..];
      HasRunweaselCons(ts[0], ts[1..]);
      HasRunweaselCons(ts[0], Keep(ts[1..]));
    }
  }

  lemma RunweaselNotDropped(t: string)
    requires IsRunweasel(t)
    ensures !IsDropped(t)
  {
    assert Lower(t)[0] == 'r';
    assert "cdromboot"[0] == 'c' && "ks="[0] == 'k';
    assert Lower(t)[..3][0] == 'r';
  }

  lemma HasRunweaselCons(t: string, ts: seq<string>)
    ensures HasRunweasel([t] + ts) <==> IsRunweasel(t) || HasRunweasel(ts)
  {
    hide IsRunweasel;
    HasRunweaselConcat([t], ts);
    assert HasRunweasel([t]) <==> IsRunweasel([t][0]);
  }

  lemma {:induction false} LoweredHasRunweasel(ts: seq<string>)
    requires AreSteady(ts)
    ensures HasRunweasel(Lowered(ts)) <==> HasRunweasel(ts)
  {
    if ts == [] {
      LoweredEmpty();
    } else {
      hide Lowered, AreSteady, All, LowerToken, MentionsCdrom, HasRunweasel, Lower, IsCdrom,
           IsRunweasel;
      var t, rest := ts[0], ts[1..];
      SteadyCons(ts);
      LoweredHasRunweasel(rest);
      EmptyNotRunweasel();
      if IsRunweasel(t) { LowerRunweasel(t); }
      LoweredCons(t, rest);
      HasRunweaselCons(t, rest);
      HasRunweaselCons(LowerToken(t), Lowered(rest));
    }
  }

  lemma EmptyNotRunweasel()
    ensures !IsRunweasel("")
  {
    assert |Lower("")| == 0 && |"runweasel"| == 9;
  }

  lemma KeepSteady(ts: seq<string>)
    requires AreSteady(ts)
    ensures AreSteady(Keep(ts))
  {
    hide IsSteady, Keep;
    forall i | 0 <= i < |Keep(ts)| ensures IsSteady(Keep(ts)[i]) {
      var j := InKeep(ts, i);
    }
  }

  /** The list-level commutation. */
  lemma StableCommutes(ts: seq<string>)
    requires AreSteady(ts)
    ensures Lowered(WithRunweasel(Keep(ts))) ==
            WithRunweasel(Keep(WithRunweasel(Lowered(DropCdrom(ts)))))
  {
    hide IsSteady, AreSteady, IsRunweasel, Lowered, IsDropped, LowerToken;
    var kept, low := Keep(ts), Lowered(DropCdrom(ts));
    KeepLowered(ts);
    KeepSteady(ts);
    LoweredHasRunweasel(kept);
    KeepHasRunweasel(low);
    RunweaselToken();
    RunweaselLowered();
    LoweredCons("runweasel", kept);
    KeepCons("runweasel", low);
    WithRunweaselOnce(kept);
    WithRunweaselOnce(low);
    RunweaselFirst(Keep(low));
    KeptRunweasel(Keep(low));
  }

  lemma RunweaselLowered()
    ensures LowerToken("runweasel") == "runweasel" && IsRunweasel("runweasel")
  {
    RunweaselToken();
    LowerRunweasel("runweasel");
  }

  lemma WithRunweaselOnce(ts: seq<string>)
    ensures WithRunweasel(ts) == if HasRunweasel(ts) then ts else ["runweasel"] + ts
  {
    hide IsRunweasel;
  }

  lemma RunweaselFirst(ts: seq<string>)
    ensures WithRunweasel(["runweasel"] + ts) == ["runweasel"] + ts
  {
    RunweaselToken();
    hide IsRunweasel;
    assert (["runweasel"] + ts)[0] == "runweasel";
  }

  lemma KeptRunweasel(ts: seq<string>)
    ensures HasRunweasel(ts) ==> WithRunweasel(ts) == ts
  {
    hide IsRunweasel;
  }

  // ---- The whole value --------------------------------------------------

  lemma SteadyNoSpace(ks: string)
    requires SteadyUrl(ks)
    ensures All(NotSpace, ks)
  {
    hide LowerIfPathLike, MentionsCdrom;
    if All(IsPlain, ks) { PlainNoSpace(ks); }
  }

  lemma KsWord(ks: string)
    requires All(NotSpace, ks)
    ensures All(NotSpace, "ks=" + ks) && IsKs("ks=" + ks) && IsToken("ks=" + ks)
    ensures Strip("ks=" + ks) == "ks=" + ks && Strip(ks) == ks
    ensures Before(NotEquals, "ks=" + ks) == "ks" && After(NotEquals, "ks=" + ks) == ks
  {
    var t := "ks=" + ks;
    assert All(NotSpace, "ks=") && All(NotEquals, "ks");
    AllConcat(NotSpace, "ks=", ks);
    assert Lower(t)[..3] == "ks=" && t == "ks" + ("=" + ks);
    NoSpaceStrip(t);
    NoSpaceStrip(ks);
    hide All;
    CutAt(NotEquals, "ks", "=" + ks);
    assert ("=" + ks)[1..] == ks;
  }

  lemma NoSpaceStrip(t: string)
    requires All(NotSpace, t)
    ensures Strip(t) == t
  {
    assert forall i :: 0 <= i < |t| ==> NotSpace(t[i]);
    TrimBare(IsSpace, t);
  }

  /** Lower-casing the token lower-cases its URL. */
  lemma KsLowered(ks: string)
    requires All(NotSpace, ks)
    ensures LowerToken("ks=" + ks) == "ks=" + LowerIfPathLike(ks)
  {
    KsWord(ks);
    KsHasEquals("ks=" + ks);
    hide All, IsHttp, LowerIfPathLike, Strip, Before, After, IsKs, IsToken;
    assert "ks" + "=" == "ks=";
  }

  lemma KsMentions(ks: string)
    requires !MentionsCdrom(ks)
    ensures !MentionsCdrom("ks=" + ks)
  {
    assert All(IsWord, "ks");
    WordAlone("ks");
    hide MentionsCdrom, All;
    MentionsNonWords("=");
    MentionsConcat("ks", "=");
    MentionsConcat("ks=", ks);
    assert "ks" + "=" == "ks=";
  }

  lemma KsTokenSmooth(ks: string)
    requires SteadyUrl(ks)
    ensures IsSmooth("ks=" + ks) && !MentionsCdrom("ks=" + ks) && IsToken("ks=" + ks)
    ensures IsKs("ks=" + ks) && All(NotSpace, ks)
  {
    assert All(IsPlain, "ks=");
    hide All, LowerToken, LowerIfPathLike, MentionsCdrom, IsKs, IsToken;
    SteadyNoSpace(ks);
    KsWord(ks);
    KsMentions(ks);
    if All(IsPlain, ks) {
      AllConcat(IsPlain, "ks=", ks);
    } else {
      KsLowered(ks);
    }
  }

  lemma SteadyNoMention(ts: seq<string>)
    requires AreSteady(ts) && NoneDropped(ts)
    ensures NoneMention(ts)
  {
    hide MentionsCdrom, All, LowerToken, IsRunweasel, IsKs;
    forall i | 0 <= i < |ts| ensures !MentionsCdrom(ts[i]) {
      assert IsSteady(ts[i]) && !IsDropped(ts[i]);
    }
  }

  lemma RunweaselIsSteady()
    ensures IsSteady("runweasel")
  {
    hide MentionsCdrom, All;
    RunweaselIsFixed();
    RunweaselPlain();
    RunweaselLowered();
  }

  lemma StableSteady(kopt: string)
    requires SteadyOption(kopt)
    ensures AreSteady(Stable(kopt)) && NoneMention(Stable(kopt))
  {
    hide IsSteady, Tokens, NoneMention, NoneDropped, HasRunweasel, AreTokens, Keep, IsRunweasel;
    KeepSteady(Tokens(kopt));
    RunweaselIsSteady();
    StableIsKept(kopt);
    SteadyNoMention(Stable(kopt));
  }

  lemma SmoothConcat(a: seq<string>, b: seq<string>)
    requires AreSmooth(a) && AreSmooth(b)
    ensures AreSmooth(a + b)
  {
    hide IsSmooth;
  }

  lemma MentionConcat(a: seq<string>, b: seq<string>)
    requires NoneMention(a) && NoneMention(b)
    ensures NoneMention(a + b)
  {
    hide MentionsCdrom;
  }

  lemma SteadyIsSmooth(ts: seq<string>)
    requires AreSteady(ts)
    ensures AreSmooth(ts)
  {
    hide IsSmooth, MentionsCdrom, LowerToken, IsRunweasel, IsCdrom;
    assert forall i :: 0 <= i < |ts| ==> IsSteady(ts[i]);
  }

  lemma KsTokensSmooth(ks: string)
    requires SteadyUrl(ks)
    ensures AreSmooth(KsTokens(ks)) && NoneMention(KsTokens(ks)) && AreTokens(KsTokens(ks))
  {
    hide MentionsCdrom, All, IsToken;
    if ks != "" { KsTokenSmooth(ks); }
  }

  lemma TokensAppend(a: seq<string>, b: seq<string>)
    requires AreTokens(a) && AreTokens(b)
    ensures AreTokens(a + b)
  {
    hide IsToken;
  }

  lemma MergeIsJoin(kopt: string, ks: string)
    requires SteadyUrl(ks)
    ensures AreTokens(MergedTokens(kopt, ks))
    ensures Merge(kopt, ks) == Join(" ", MergedTokens(kopt, ks))
    ensures MergedTokens(kopt, ks) == Stable(kopt) + KsTokens(ks)
  {
    hide AreTokens, KsTokens, Strip, SteadyUrl, WithRunweasel, Keep;
    KsTokensSmooth(ks);
    TokensAppend(Stable(kopt), KsTokens(ks));
    JoinTrimmed(MergedTokens(kopt, ks));
  }

  /** Normalising a line activation has written. */
  lemma NormalizeMerged(kopt: string, ks: string)
    requires SteadyOption(kopt) && SteadyUrl(ks)
    ensures NetworkTokens(Merge(kopt, ks)) == Lowered(Stable(kopt)) + Lowered(KsTokens(ks))
  {
    var ts := MergedTokens(kopt, ks);
    hide AreTokens, KsTokens, SteadyUrl, Merge, MergedTokens, Stable, AreSmooth, NoneMention,
         AreSteady, Lowered, NetworkTokens, HasRunweasel, WithoutCdrom;
    MergeIsJoin(kopt, ks);
    StableSteady(kopt);
    SteadyIsSmooth(Stable(kopt));
    KsTokensSmooth(ks);
    SmoothConcat(Stable(kopt), KsTokens(ks));
    MentionConcat(Stable(kopt), KsTokens(ks));
    NormalizeSmooth(ts);
    LoweredConcat(Stable(kopt), KsTokens(ks));
    StableIsKept(kopt);
    LoweredHasRunweasel(Stable(kopt));
    HasRunweaselConcat(Lowered(Stable(kopt)), Lowered(KsTokens(ks)));
    KeptRunweasel(Lowered(ts));
  }

  lemma NormalizeSmooth(ts: seq<string>)
    requires AreTokens(ts) && AreSmooth(ts) && NoneMention(ts)
    ensures NetworkTokens(Join(" ", ts)) == WithRunweasel(Lowered(ts))
  {
    hide AreTokens, AreSmooth, NetworkTokens, MentionsCdrom, WithoutCdrom, WithRunweasel,
         NonEmpty, LowerTokens;
    JoinMentions(ts);
    WithoutNone(Join(" ", ts));
    TokensOfJoin(ts);
    NetworkTokensSmooth(Join(" ", ts));
  }

  /** Activating a line that has been normalised. */
  lemma MergeNormalized(kopt: string)
    requires SteadyOption(kopt)
    ensures Stable(Normalize(kopt)) == Lowered(Stable(kopt))
  {
    var ts := Tokens(kopt);
    hide AreTokens, AreSmooth, WithoutCdrom, WithRunweasel, NonEmpty, LowerTokens, AreSteady,
         Keep, DropCdrom, Tokens;
    WithoutTokens(kopt);
    DropSmooth(ts);
    NetworkTokensSmooth(kopt);
    TokensOfJoin(NetworkTokens(kopt));
    StableCommutes(ts);
  }

  lemma {:induction false} DropSmooth(ts: seq<string>)
    requires AreSteady(ts)
    ensures AreSmooth(DropCdrom(ts))
  {
    if ts != [] {
      hide IsCdrom, AreSteady, AreSmooth;
      SteadyCons(ts);
      DropSmooth(ts[1..]);
      assert IsSmooth(ts[0]);
      SmoothCons(ts[0], DropCdrom(ts[1..]));
    }
  }

  lemma SmoothCons(t: string, ts: seq<string>)
    requires IsSmooth(t) && AreSmooth(ts)
    ensures AreSmooth([t] + ts)
  {
    hide IsSmooth;
  }

  /** The two orders agree on a value exactly when the URL is lower-cased already. */
  lemma OptionCommutes(kopt: string, ks: string)
    requires SteadyOption(kopt) && SteadyUrl(ks)
    ensures Normalize(Merge(kopt, ks)) == Merge(Normalize(kopt), ks) <==> LoweredUrl(ks)
  {
    hide AreTokens, Merge, Stable, SteadyUrl, SteadyOption, NetworkTokens, Lowered, LoweredUrl,
         MergedTokens, KsTokens;
    NormalizeMerged(kopt, ks);
    MergeNormalized(kopt);
    MergeIsJoin(Normalize(kopt), ks);
    LastTokens(Lowered(Stable(kopt)), ks);
  }

  lemma LastTokens(ts: seq<string>, ks: string)
    requires AreTokens(ts) && SteadyUrl(ks)
    ensures Join(" ", ts + Lowered(KsTokens(ks))) == Join(" ", ts + KsTokens(ks)) <==> LoweredUrl(ks)
  {
    if ks == "" {
      LoweredEmpty();
    } else {
      KsTokenSmooth(ks);
      var t := "ks=" + ks;
      LowerTokenSmooth(t);
      LowerKeepsKs(t);
      KsHasEquals(LowerToken(t));
      LoweredOne(t);
      hide AreTokens, SteadyUrl, Lowered, IsToken, All, MentionsCdrom, LowerToken, IsKs;
      SmoothIsToken(LowerToken(t));
      TokensOfJoinLast(ts, t);
      TokensOfJoinLast(ts, LowerToken(t));
      TokensOfToken(t);
      TokensOfToken(LowerToken(t));
      assert (ts + [t])[|ts|] == t && (ts + [LowerToken(t)])[|ts|] == LowerToken(t);
    }
  }

  lemma LoweredOne(t: string)
    requires LowerToken(t) != ""
    ensures Lowered([t]) == [LowerToken(t)]
  {
    hide LowerToken;
    LoweredCons(t, []);
    LoweredEmpty();
    assert [t] + [] == [t];
  }

  // ---- What refreshing makes of the URL ---------------------------------

  /** The URL as the refresh rewrites it. */
  function LoweredKs(ks: string): string { LowerIfPathLike(ks) }

  /** Nothing but slashes and backslashes: lower-casing leaves nothing of it. */
  predicate OnlySlashes(s: string) {
    forall i :: 0 <= i < |s| ==> s[i] == '/' || s[i] == '\\'
  }

  /** The empty URL of a clear, or one with some text in it. */
  predicate ProperUrl(ks: string) { ks == "" || !OnlySlashes(ks) }

  lemma KsValue(ks: string)
    requires SteadyUrl(ks)
    ensures LowerToken("ks=" + ks) == "ks=" + LoweredKs(ks)
  {
    hide LowerToken, LowerIfPathLike, MentionsCdrom;
    SteadyNoSpace(ks);
    KsLowered(ks);
  }

  lemma LoweredUrlMeans(ks: string)
    requires SteadyUrl(ks)
    ensures LoweredUrl(ks) <==> LoweredKs(ks) == ks
  {
    hide LowerToken, LowerUrlPath, LowerRel, All, MentionsCdrom, IsHttp;
    if ks == "" {
      PlainStrip(ks);
      SlashesOf("");
    } else {
      KsValue(ks);
      SameText("ks=", LoweredKs(ks), ks);
    }
  }

  lemma SlashesOf(s: string)
    ensures s == "" ==> !IsHttp(s) && '/' !in Slashed(s)
  {
  }

  lemma HttpHasText(u: string)
    requires IsHttp(u)
    ensures !OnlySlashes(u)
  {
    assert Lower(u)[0] == 'h';
    assert u[0] != '/' && u[0] != '\\';
  }

  /** A path with some text in it keeps some. */
  lemma RelHasText(v: string)
    requires All(IsPlain, v) && !OnlySlashes(v)
    ensures !OnlySlashes(LowerRel(v))
  {
    var s := Slashed(v);
    var i :| 0 <= i < |v| && v[i] != '/' && v[i] != '\\';
    assert !IsSlash(s[i]);
    LowerRelPlain(v);
    TrimIsBare(IsSlash, s);
    var m := Trim(IsSlash, s);
    TrimOfOther(IsSlash, s, i);
    hide Trim;
    assert m[0] != '/';
    LowerRelChars(v);
    assert Lower(m)[0] != '/' && NotBackslash(Lower(m)[0]);
  }

  lemma TrimOfOther(p: char -> bool, s: string, i: nat)
    requires i < |s| && !p(s[i])
    ensures Trim(p, s) != ""
  {
    var a, b := TrimSplit(p, s);
    hide Trim;
    AllConcat(p, a, b);
    assert Trim(p, s) == "" ==> s == a + b;
  }

  lemma LoweredKsKeeps(ks: string)
    requires SteadyUrl(ks) && ProperUrl(ks)
    ensures SteadyUrl(LoweredKs(ks)) && ProperUrl(LoweredKs(ks))
    ensures LoweredKs(ks) == "" <==> ks == ""
  {
    hide LowerIfPathLike, MentionsCdrom, All, ProperUrl;
    if All(IsPlain, ks) { PlainKsKeeps(ks); }
  }

  lemma PlainKsKeeps(ks: string)
    requires All(IsPlain, ks) && !MentionsCdrom(ks) && ProperUrl(ks)
    ensures All(IsPlain, LoweredKs(ks)) && !MentionsCdrom(LoweredKs(ks)) && ProperUrl(LoweredKs(ks))
    ensures LoweredKs(ks) == "" <==> ks == ""
  {
    LowerIfPathLikePlain(ks);
    PlainStrip(ks);
    LowerRelPlain(ks);
    SlashesOf(ks);
    hide All, MentionsCdrom, LowerRel, LowerUrlPath, IsHttp, OnlySlashes, Slashed;
    if ks == "" {
    } else if IsHttp(ks) {
      HttpHasText(LoweredKs(ks));
      EmptyIsSlashes();
    } else {
      RelHasText(ks);
      EmptyIsSlashes();
    }
  }

  lemma EmptyIsSlashes()
    ensures OnlySlashes("")
  {
  }

  lemma LoweredKsTokens(ks: string)
    requires SteadyUrl(ks) && ProperUrl(ks)
    ensures Lowered(KsTokens(ks)) == KsTokens(LoweredKs(ks))
  {
    hide SteadyUrl, ProperUrl, Lowered, LowerToken, LowerIfPathLike;
    LoweredKsKeeps(ks);
    if ks == "" {
      LoweredEmpty();
    } else {
      KsValue(ks);
      LoweredOne("ks=" + ks);
    }
  }

  /** On every URL: normalising the merged value is merging the lower-cased URL into the
      normalised one. */
  lemma OptionRelates(kopt: string, ks: string)
    requires SteadyOption(kopt) && SteadyUrl(ks) && ProperUrl(ks)
    ensures Normalize(Merge(kopt, ks)) == Merge(Normalize(kopt), LoweredKs(ks))
  {
    hide AreTokens, Merge, Stable, SteadyUrl, ProperUrl, SteadyOption, NetworkTokens, Lowered,
         LoweredKs, MergedTokens, KsTokens;
    LoweredKsKeeps(ks);
    NormalizeMerged(kopt, ks);
    MergeNormalized(kopt);
    MergeIsJoin(Normalize(kopt), LoweredKs(ks));
    LoweredKsTokens(ks);
  }

  /** A second refresh may change the URL once more; a third does not, and neither does the
      second when it gives the original URL back. */
  lemma LoweredKsSettles(ks: string)
    requires SteadyUrl(ks)
    ensures LoweredKs(LoweredKs(LoweredKs(ks))) == LoweredKs(LoweredKs(ks))
    ensures LoweredKs(LoweredKs(ks)) == ks ==> LoweredKs(ks) == ks
  {
    hide LowerIfPathLike, All, MentionsCdrom;
    if All(IsPlain, ks) {
      LowerIfPathLikePlain(ks);
      LoweredHidesNoUrl(ks);
      LowerIfPathLikeTwice(LoweredKs(ks));
    }
  }
}
