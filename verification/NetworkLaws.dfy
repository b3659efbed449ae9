/** The whole `kernelopt` value: normalising it twice is normalising it once, and
    normalising commutes with replacing the kickstart token. */
module NetworkLaws {
  import opened Text
  import opened Url
  import opened Kernelopt
  import opened KerneloptWords
  import opened KerneloptTwice
  import opened KickstartLaws

  // ---- Dropping cdromBoot -----------------------------------------------

  lemma {:induction false} WithoutNone(s: string)
    requires !MentionsCdrom(s)
    ensures WithoutCdrom(s) == s
    decreases |s|
  {
    hide All, IsWord;
    if s != "" {
      if IsWord(s[0]) {
        var n := Span(IsWord, s);
        WithoutNone(s[n..]);
        assert s == s[..n] + s[n..];
      } else {
        WithoutNone(s[1..]);
        assert s == [s[0]] + s[1..];
      }
    }
  }

  /** What is left starts where the text did, unless it started with the word itself. */
  lemma WithoutHead(s: string)
    requires s != "" && !IsWord(s[0])
    ensures WithoutCdrom(s) != "" && WithoutCdrom(s)[0] == s[0]
  {
  }

  lemma {:induction false} WithoutIsClean(s: string)
    ensures !MentionsCdrom(WithoutCdrom(s))
    decreases |s|
  {
    if s != "" {
      if IsWord(s[0]) {
        var n := Span(IsWord, s);
        var word, rest := s[..n], WithoutCdrom(s[n..]);
        WithoutIsClean(s[n..]);
        if n < |s| { WithoutHead(s[n..]); }
        if Lower(word) != "cdromboot" {
          WordAlone(word);
          hide MentionsCdrom, WithoutCdrom, All;
          MentionsConcat(word, rest);
        } else {
          assert "" + rest == rest;
        }
      } else {
        WithoutIsClean(s[1..]);
        assert ([s[0]] + WithoutCdrom(s[1..]))[1..] == WithoutCdrom(s[1..]);
      }
    }
  }

  lemma WordAlone(word: string)
    requires word != "" && All(IsWord, word)
    ensures MentionsCdrom(word) <==> Lower(word) == "cdromboot"
  {
    assert IsWord(word[0]);
    assert word + "" == word;
    hide All;
    SpanOf(IsWord, word, "");
    assert word[..|word|] == word;
  }

  lemma SpacesNoWord(s: string)
    requires All(IsSpace, s)
    ensures forall i :: 0 <= i < |s| ==> !IsWord(s[i])
  {
    forall i | 0 <= i < |s| ensures !IsWord(s[i]) { assert IsSpace(s[i]); }
  }

  lemma {:induction false} TokensMention(s: string)
    requires !MentionsCdrom(s)
    ensures forall i :: 0 <= i < |Tokens(s)| ==> !MentionsCdrom(Tokens(s)[i])
    decreases |s|
  {
    hide MentionsCdrom, Tokens, All, IsSpace;
    if All(IsSpace, s) {
      TokensOfSpaces(s);
    } else {
      var gap, word, rest := FirstToken(s);
      assert |word| > 0;
      assert rest != "" ==> !IsWord(rest[0]) by { SpaceNoWord(rest); }
      MentionsAppend(gap, word, rest);
      TokensSkip(gap, word + rest);
      TokensHead(word, rest);
      TokensMention(rest);
    }
  }

  lemma SpaceNoWord(rest: string)
    requires rest != "" ==> IsSpace(rest[0])
    ensures rest != "" ==> !IsWord(rest[0])
  {
  }

  lemma MentionsAppend(gap: string, word: string, rest: string)
    requires All(IsSpace, gap) && (rest != "" ==> !IsWord(rest[0]))
    ensures MentionsCdrom(gap + (word + rest)) <==> MentionsCdrom(word) || MentionsCdrom(rest)
  {
    SpacesNoWord(gap);
    hide MentionsCdrom, All, IsSpace, IsWord;
    MentionsNonWords(gap);
    MentionsConcat(gap, word + rest);
    MentionsConcat(word, rest);
  }

  lemma {:induction false} JoinMentions(ts: seq<string>)
    requires forall i :: 0 <= i < |ts| ==> !MentionsCdrom(ts[i])
    ensures !MentionsCdrom(Join(" ", ts))
  {
    if |ts| > 1 {
      JoinMentions(ts[1..]);
      hide MentionsCdrom;
      SpaceNoMention();
      MentionsConcat(ts[0], " ");
      MentionsConcat(ts[0] + " ", Join(" ", ts[1..]));
    }
  }

  lemma SpaceNoMention()
    ensures !MentionsCdrom(" ") && !MentionsCdrom("")
  {
    MentionsNonWords(" ");
  }

  // ---- Joining lower-cased tokens ---------------------------------------

  function NonEmpty(ts: seq<string>): seq<string> {
    if ts == [] then []
    else if ts[0] == "" then NonEmpty(ts[1..])
    else [ts[0]] + NonEmpty(ts[1..])
  }

  predicate AreSmooth(ts: seq<string>) {
    forall i :: 0 <= i < |ts| ==> IsSmooth(ts[i])
  }

  lemma SmoothIsToken(t: string)
    requires IsSmooth(t) && t != ""
    ensures IsToken(t)
  {
    hide LowerToken;
    SmoothNoSpace(t);
  }

  lemma {:induction false} TokensOfSmoothJoin(ts: seq<string>)
    requires AreSmooth(ts)
    ensures Tokens(Join(" ", ts)) == NonEmpty(ts)
  {
    if ts == [] {
    } else {
      assert IsSmooth(ts[0]) && AreSmooth(ts[1..]);
      hide AreSmooth, IsSmooth, Tokens, IsToken;
      TokensOfSmoothJoin(ts[1..]);
      var rest := if |ts| == 1 then "" else " " + Join(" ", ts[1..]);
      assert Join(" ", ts) == ts[0] + rest;
      assert Tokens(rest) == Tokens(Join(" ", ts[1..])) by {
        SpaceIsSpace();
        TokensSkip(" ", Join(" ", ts[1..]));
        if |ts| == 1 { assert ts[1..] == []; }
      }
      if ts[0] == "" {
        assert "" + rest == rest;
      } else {
        SmoothIsToken(ts[0]);
        TokensHead(ts[0], rest);
      }
    }
  }

  lemma LowerTokensSmooth(ts: seq<string>)
    requires AreSmooth(ts)
    ensures AreSmooth(LowerTokens(ts))
  {
    hide IsSmooth, LowerToken, MentionsCdrom;
    forall i | 0 <= i < |ts| ensures IsSmooth(LowerTokens(ts)[i]) {
      assert IsSmooth(ts[i]);
      LowerTokenSmooth(ts[i]);
    }
  }

  /** On plain tokens the two joins and splits amount to dropping the empty tokens. */
  lemma NetworkTokensSmooth(kopt: string)
    requires AreSmooth(Tokens(WithoutCdrom(kopt)))
    ensures NetworkTokens(kopt) ==
            WithRunweasel(NonEmpty(LowerTokens(Tokens(WithoutCdrom(kopt)))))
  {
    hide AreSmooth, Tokens, WithRunweasel, AreTokens, WithoutCdrom;
    var ts := LowerTokens(Tokens(WithoutCdrom(kopt)));
    LowerTokensSmooth(Tokens(WithoutCdrom(kopt)));
    TokensOfSmoothJoin(ts);
  }

  // ---- Normalising twice ------------------------------------------------

  predicate AreSettled(ts: seq<string>) {
    forall i :: 0 <= i < |ts| ==> IsSettledToken(ts[i])
  }

  /** No `%` to decode, except in tokens that stay as they are. */
  predicate SmoothOption(kopt: string) { AreSmooth(Tokens(WithoutCdrom(kopt))) }

  /** Every token is in final form after one pass. */
  predicate SettledOption(kopt: string) { AreSettled(Tokens(WithoutCdrom(kopt))) }

  /** A token lower-casing leaves alone. */
  predicate IsFixed(t: string) { IsToken(t) && All(IsPlain, t) && LowerToken(t) == t }

  /** Lower-casing any smooth token settles it: a third pass changes nothing more. */
  lemma SmoothIsSettled(t: string)
    requires IsSmooth(t)
    ensures IsSettledToken(LowerToken(t))
  {
    hide LowerToken, IsSettledValue, All;
    if All(IsPlain, t) { LoweredIsSettled(t); }
  }

  /** The same for a plain token. */
  lemma LoweredIsSettled(t: string)
    requires All(IsPlain, t)
    ensures IsSettledToken(LowerToken(t))
  {
    TokenParts(t);
    LowerTokenParts(t);
    LowerTokenPlain(t);
    hide All, LowerToken, LowerIfPathLike, MentionsCdrom, IsHttp, LowerRel, LowerUrlPath, Complete;
    var v := LowerIfPathLike(ValuePart(t));
    LowerIfPathLikePlain(ValuePart(t));
    assert ValuePart(LowerToken(t)) == v by {
      if KeyPart(t) != "" { SameKey(t, v); } else { assert LowerToken(t) == v; }
    }
    LoweredHidesNoUrl(ValuePart(t));
  }

  lemma LoweredHidesNoUrl(v: string)
    requires All(IsPlain, v)
    ensures !HidesUrl(LowerIfPathLike(v))
  {
    PlainStrip(v);
    LowerRelPlain(v);
    LowerIfPathLikePlain(v);
    hide All, IsHttp, LowerRel, LowerUrlPath, MentionsCdrom;
    if !IsHttp(v) && '/' in Slashed(v) {
      PlainTrimmed(LowerRel(v));
      LowerRelTwice(v);
    }
  }

  lemma {:induction false} NonEmptyFrom(ts: seq<string>, i: nat) returns (j: nat)
    requires i < |NonEmpty(ts)|
    ensures j < |ts| && NonEmpty(ts)[i] == ts[j] && ts[j] != ""
  {
    if ts[0] == "" {
      j := NonEmptyFrom(ts[1..], i);
      j := j + 1;
    } else if i == 0 {
      j := 0;
    } else {
      j := NonEmptyFrom(ts[1..], i - 1);
      j := j + 1;
    }
  }

  lemma {:induction false} NonEmptyHas(ts: seq<string>, j: nat) returns (i: nat)
    requires j < |ts| && ts[j] != ""
    ensures i < |NonEmpty(ts)| && NonEmpty(ts)[i] == ts[j]
  {
    if j == 0 {
      i := 0;
    } else {
      i := NonEmptyHas(ts[1..], j - 1);
      i := if ts[0] == "" then i else i + 1;
    }
  }

  lemma {:induction false} NonEmptyAll(ts: seq<string>)
    ensures |NonEmpty(ts)| <= |ts|
    ensures |NonEmpty(ts)| == |ts| ==> NonEmpty(ts) == ts
  {
    if ts != [] {
      NonEmptyAll(ts[1..]);
      assert ts == [ts[0]] + ts[1..];
    }
  }

  predicate NoneMention(ts: seq<string>) {
    forall i :: 0 <= i < |ts| ==> !MentionsCdrom(ts[i])
  }

  lemma LoweredMention(ts: seq<string>)
    requires AreSmooth(ts) && NoneMention(ts)
    ensures NoneMention(NonEmpty(LowerTokens(ts)))
    ensures AreSettled(NonEmpty(LowerTokens(ts)))
  {
    var out := NonEmpty(LowerTokens(ts));
    hide MentionsCdrom, LowerToken, NonEmpty, IsSmooth, IsSettledToken;
    forall i | 0 <= i < |out| ensures !MentionsCdrom(out[i]) && IsSettledToken(out[i]) {
      var j := NonEmptyFrom(LowerTokens(ts), i);
      assert IsSmooth(ts[j]) && !MentionsCdrom(ts[j]);
      LowerTokenSmooth(ts[j]);
      SmoothIsSettled(ts[j]);
    }
  }

  lemma RunweaselIsFixed()
    ensures IsFixed("runweasel") && !MentionsCdrom("runweasel") && IsSettledToken("runweasel")
  {
    RunweaselToken();
    RunweaselPlain();
    WordAlone("runweasel");
    hide MentionsCdrom, All, IsToken, Complete;
    assert Lower("runweasel") == "runweasel";
    assert |"cdromboot"| == 9 && "cdromboot"[0] == 'c';
    PlainStrip("runweasel");
    LowerRunweasel("runweasel");
  }

  lemma RunweaselPlain()
    ensures All(IsPlain, "runweasel") && All(IsWord, "runweasel")
  {
  }

  /** A token that spells runweasel, in any case, is left as it is. */
  lemma LowerRunweasel(t: string)
    requires IsRunweasel(t)
    ensures LowerToken(t) == t && All(IsPlain, t) && !HidesUrl(ValuePart(t))
    ensures !IsHttp(t) && '=' !in t
  {
    assert forall i :: 0 <= i < |t| ==> 'a' <= "runweasel"[i] <= 'z';
    assert forall i :: 0 <= i < |t| ==> LowerChar(t[i]) == "runweasel"[i];
    assert forall i :: 0 <= i < |t| ==> t[i] != '/' && t[i] != '\\' && t[i] != '=' && IsPlain(t[i]);
    assert Lower(t)[0] == 'r';
    assert "http://"[0] == 'h' && "https://"[0] == 'h';
    assert !IsHttp(t);
    assert '/' !in Slashed(t);
    PlainStrip(t);
  }

  /** Tokens without the word cdromBoot are read back from their own text. */
  lemma CleanTokens(ts: seq<string>)
    requires AreTokens(ts) && NoneMention(ts)
    ensures Tokens(WithoutCdrom(Join(" ", ts))) == ts
  {
    hide MentionsCdrom, IsToken;
    JoinMentions(ts);
    WithoutNone(Join(" ", ts));
    TokensOfJoin(ts);
  }

  lemma WithRunweaselKeeps(ts: seq<string>)
    requires NoneMention(ts) && AreSettled(ts)
    ensures NoneMention(WithRunweasel(ts)) && AreSettled(WithRunweasel(ts))
    ensures HasRunweasel(WithRunweasel(ts))
  {
    hide MentionsCdrom, IsSettledToken, IsRunweasel, IsFixed, IsToken;
    RunweaselIsFixed();
    WithRunweaselHas(ts);
    assert forall i :: 0 <= i < |ts| ==> (["runweasel"] + ts)[i + 1] == ts[i];
  }

  lemma SettledIsSmooth(ts: seq<string>)
    requires AreSettled(ts)
    ensures AreSmooth(ts)
  {
    hide LowerToken, IsSettledValue, All;
    assert forall i :: 0 <= i < |ts| ==> IsSettledToken(ts[i]);
  }

  /** What one pass writes: settled tokens that are read back as they are. */
  lemma NormalizeParts(kopt: string)
    requires SmoothOption(kopt)
    ensures HasRunweasel(NetworkTokens(kopt)) && AreSettled(NetworkTokens(kopt))
    ensures Tokens(WithoutCdrom(Normalize(kopt))) == NetworkTokens(kopt)
    ensures SettledOption(Normalize(kopt)) && SmoothOption(Normalize(kopt))
  {
    var ts := Tokens(WithoutCdrom(kopt));
    hide MentionsCdrom, Tokens, WithoutCdrom, AreSettled, WithRunweasel, LowerTokens,
         NonEmpty, AreTokens, AreSmooth, HasRunweasel, NetworkTokens;
    WithoutIsClean(kopt);
    TokensMention(WithoutCdrom(kopt));
    NetworkTokensSmooth(kopt);
    LoweredMention(ts);
    WithRunweaselKeeps(NonEmpty(LowerTokens(ts)));
    CleanTokens(NetworkTokens(kopt));
    SettledIsSmooth(NetworkTokens(kopt));
  }

  lemma {:induction false} NonEmptyTokens(ts: seq<string>)
    requires AreTokens(ts)
    ensures NonEmpty(ts) == ts
  {
    if ts != [] {
      assert IsToken(ts[0]) && AreTokens(ts[1..]);
      hide All;
      NonEmptyTokens(ts[1..]);
      assert ts == [ts[0]] + ts[1..];
    }
  }

  lemma RunweaselStays(ts: seq<string>)
    requires HasRunweasel(ts)
    ensures WithRunweasel(NonEmpty(LowerTokens(ts))) == NonEmpty(LowerTokens(ts))
  {
    hide LowerToken, HidesUrl, IsHttp, NonEmpty, All;
    var i: nat :| i < |ts| && IsRunweasel(ts[i]);
    LowerRunweasel(ts[i]);
    assert |Lower(ts[i])| == 9;
    var k := NonEmptyHas(LowerTokens(ts), i);
  }

  predicate NoneMoves(ts: seq<string>) {
    forall i :: 0 <= i < |ts| ==> LowerToken(ts[i]) == ts[i]
  }

  /** The tokens after a second pass over what a first one wrote. */
  lemma SecondPass(ts: seq<string>)
    requires HasRunweasel(ts) && AreTokens(ts)
    ensures WithRunweasel(NonEmpty(LowerTokens(ts))) == ts <==> NoneMoves(ts)
  {
    hide LowerToken, NonEmpty, IsToken, IsRunweasel, WithRunweasel, HasRunweasel;
    RunweaselStays(ts);
    NonEmptyAll(LowerTokens(ts));
    NonEmptyTokens(ts);
    if NoneMoves(ts) {
      assert LowerTokens(ts) == ts;
    }
    if NonEmpty(LowerTokens(ts)) == ts {
      assert LowerTokens(ts) == ts;
      assert forall i :: 0 <= i < |ts| ==> LowerTokens(ts)[i] == LowerToken(ts[i]);
    }
  }

  lemma LowerEmpty()
    ensures LowerToken("") == ""
  {
    PlainStrip("");
    assert Lower("") == "" && '/' !in Slashed("");
  }

  /** The tokens of the first pass stay exactly when the tokens it was given settle. */
  lemma FirstPass(ts: seq<string>)
    requires AreSmooth(ts)
    ensures NoneMoves(WithRunweasel(NonEmpty(LowerTokens(ts)))) <==> AreSettled(ts)
  {
    var ms := NonEmpty(LowerTokens(ts));
    RunweaselIsFixed();
    hide LowerToken, NonEmpty, IsToken, IsRunweasel, WithRunweasel, IsSmooth, IsSettledToken, All, MentionsCdrom;
    MovesWithRunweasel(ms);
    if AreSettled(ts) {
      forall k | 0 <= k < |ms| ensures LowerToken(ms[k]) == ms[k] {
        var j := NonEmptyFrom(LowerTokens(ts), k);
        assert IsSettledToken(ts[j]);
        SmoothTwice(ts[j]);
      }
    }
    if NoneMoves(ms) {
      forall j | 0 <= j < |ts| ensures IsSettledToken(ts[j]) {
        assert IsSmooth(ts[j]);
        LowerEmpty();
        SmoothTwice(ts[j]);
        if LowerToken(ts[j]) != "" { var k := NonEmptyHas(LowerTokens(ts), j); }
      }
    }
  }

  lemma MovesWithRunweasel(ts: seq<string>)
    requires IsFixed("runweasel")
    ensures NoneMoves(WithRunweasel(ts)) <==> NoneMoves(ts)
  {
    var all := WithRunweasel(ts);
    hide LowerToken, IsToken, IsRunweasel, All;
    if all != ts {
      assert forall i :: 0 <= i < |ts| ==> all[i + 1] == ts[i];
    }
  }

  lemma NormalizeAgainOption(kopt: string)
    requires SmoothOption(kopt)
    ensures Normalize(Normalize(kopt)) == Normalize(kopt) <==> SettledOption(kopt)
  {
    var ts := Tokens(WithoutCdrom(kopt));
    var first, second := NetworkTokens(kopt), NetworkTokens(Normalize(kopt));
    NormalizeParts(kopt);
    NetworkTokensSmooth(kopt);
    NetworkTokensSmooth(Normalize(kopt));
    hide Tokens, WithoutCdrom, AreSettled, WithRunweasel, LowerTokens, NonEmpty, AreTokens,
         AreSmooth, HasRunweasel, NetworkTokens, NoneMoves;
    SecondPass(first);
    FirstPass(ts);
    TokensOfJoin(first);
    TokensOfJoin(second);
  }

  /** Normalising a second time changes nothing exactly when every token settles in one
      pass, and two passes always settle. */
  lemma NormalizeTwice(kopt: string)
    requires SmoothOption(kopt)
    ensures Normalize(Normalize(kopt)) == Normalize(kopt) <==> SettledOption(kopt)
    ensures Normalize(Normalize(Normalize(kopt))) == Normalize(Normalize(kopt))
  {
    hide Normalize, SettledOption, SmoothOption;
    NormalizeAgainOption(kopt);
    NormalizedIsSmooth(kopt);
    NormalizeAgainOption(Normalize(kopt));
  }

  lemma NormalizedIsSmooth(kopt: string)
    requires SmoothOption(kopt)
    ensures SmoothOption(Normalize(kopt)) && SettledOption(Normalize(kopt))
  {
    NormalizeParts(kopt);
  }
}
