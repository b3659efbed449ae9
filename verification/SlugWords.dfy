/** What the slug of any label is: its words in lower case, one dash apart. */
module SlugWords {
  import opened Text
  import opened Slugs

  /** White space, underscores and dashes separate words. */
  predicate Separates(c: char) { IsSpace(c) || c == '_' || c == '-' }

  predicate WordChar(c: char) {
    'a' <= c <= 'z' || 'A' <= c <= 'Z' || '0' <= c <= '9' || c == '.'
  }

  function Closed(word: string): seq<string> { if word == "" then [] else [word] }

  /** The words of a label, begun with word: letters, digits and dots in lower case; separators end
      a word, and every other character is left out. */
  function WordsFrom(t: string, word: string): seq<string>
    decreases |t|
  {
    if t == "" then Closed(word)
    else if Separates(t[0]) then Closed(word) + WordsFrom(t[1..], "")
    else if WordChar(t[0]) then WordsFrom(t[1..], word + [LowerChar(t[0])])
    else WordsFrom(t[1..], word)
  }

  // ---- The steps of the function ----------------------------------------

  lemma {:induction false} WordsOfLower(t: string, word: string)
    ensures WordsFrom(Filtered(Lower(t)), word) == WordsFrom(t, word)
    decreases |t|
  {
    if t != "" {
      var c, low := t[0], Lower(t);
      assert low[1..] == Lower(t[1..]);
      CharKinds(c);
      assert low[0] == LowerChar(c);
      hide Lower, LowerChar, Stays, Separates, WordChar;
      WordsOfLower(t[1..], "");
      WordsOfLower(t[1..], word);
      WordsOfLower(t[1..], word + [LowerChar(c)]);
      WordsCons(LowerChar(c), Filtered(Lower(t[1..])), word);
      var rest := Filtered(low[1..]);
      assert Filtered(low) == (if Stays(low[0]) then [low[0]] else "") + rest;
      assert [] + rest == rest;
    }
  }

  lemma CharKinds(c: char)
    ensures Separates(LowerChar(c)) <==> Separates(c)
    ensures WordChar(LowerChar(c)) <==> WordChar(c)
    ensures LowerChar(LowerChar(c)) == LowerChar(c)
    ensures Stays(LowerChar(c)) <==> Separates(c) || WordChar(c)
  {
  }

  lemma WordsCons(c: char, t: string, word: string)
    ensures WordsFrom([c] + t, word) ==
            if Separates(c) then Closed(word) + WordsFrom(t, "")
            else if WordChar(c) then WordsFrom(t, word + [LowerChar(c)])
            else WordsFrom(t, word)
  {
    assert ([c] + t)[1..] == t;
  }

  lemma {:induction false} SkipSeparators(a: string, t: string)
    requires All(Separates, a)
    ensures WordsFrom(a + t, "") == WordsFrom(t, "")
  {
    if a == "" {
      assert a + t == t;
    } else {
      assert Separates(a[0]) && All(Separates, a[1..]);
      assert a + t == [a[0]] + (a[1..] + t);
      SkipSeparators(a[1..], t);
      WordsCons(a[0], a[1..] + t, "");
      assert [] + WordsFrom(t, "") == WordsFrom(t, "");
    }
  }

  lemma {:induction false} DropSeparators(t: string, b: string, word: string)
    requires All(Separates, b)
    ensures WordsFrom(t + b, word) == WordsFrom(t, word)
    decreases |t|
  {
    if t == "" {
      assert t + b == b;
      SeparatorsOnly(b, word);
    } else {
      assert t + b == [t[0]] + (t[1..] + b);
      WordsCons(t[0], t[1..] + b, word);
      DropSeparators(t[1..], b, "");
      DropSeparators(t[1..], b, word);
      DropSeparators(t[1..], b, word + [LowerChar(t[0])]);
    }
  }

  lemma SeparatorsOnly(b: string, word: string)
    requires All(Separates, b)
    ensures WordsFrom(b, word) == Closed(word)
  {
    if b != "" {
      assert Separates(b[0]) && All(Separates, b[1..]);
      SkipSeparators(b[1..], "");
      assert b[1..] + "" == b[1..];
      assert Closed(word) + [] == Closed(word);
    }
  }

  lemma {:induction false} FilteredConcat(a: string, b: string)
    ensures Filtered(a + b) == Filtered(a) + Filtered(b)
  {
    hide Stays;
    if a == "" {
      assert a + b == b;
    } else {
      assert (a + b)[1..] == a[1..] + b;
      FilteredConcat(a[1..], b);
      Assoc(if Stays(a[0]) then [a[0]] else "", Filtered(a[1..]), Filtered(b));
    }
  }

  lemma SpacesSeparate(a: string)
    requires All(IsSpace, a)
    ensures Filtered(a) == a && All(Separates, a)
  {
    assert forall i :: 0 <= i < |a| ==> IsSpace(a[i]);
    assert All(Stays, a);
    FilteredSame(a);
  }

  lemma StrippedWords(x: string)
    ensures WordsFrom(Filtered(Strip(x)), "") == WordsFrom(Filtered(x), "")
  {
    var a, b := TrimSplit(IsSpace, x);
    var m := Strip(x);
    assert x == a + m + b;
    hide Strip, Trim, All, Filtered, WordsFrom;
    SpacesSeparate(a);
    SpacesSeparate(b);
    FilteredConcat(a + m, b);
    FilteredConcat(a, m);
    Assoc(a, Filtered(m), b);
    SkipSeparators(a, Filtered(m) + b);
    DropSeparators(Filtered(m), b, "");
  }

  // ---- Runs of separators -----------------------------------------------

  lemma TrimLeftMore(p: char -> bool, a: string, t: string)
    requires All(p, a)
    ensures TrimLeft(p, a + t) == TrimLeft(p, t)
  {
    hide All;
    var n := Span(p, t);
    AllConcat(p, a, t[..n]);
    Parted(t, n);
    Assoc(a, t[..n], t[n..]);
    assert a + t == (a + t[..n]) + t[n..];
    SpanOf(p, a + t[..n], t[n..]);
    CutOff(a + t[..n], t[n..]);
  }

  lemma CutOff(a: string, b: string)
    ensures (a + b)[|a|..] == b
  {
  }

  lemma DashedRun(p: char -> bool, t: string)
    requires t != "" && p(t[0])
    ensures Dashed(p, t) == "-" + Dashed(p, TrimLeft(p, t)) && |TrimLeft(p, t)| < |t|
  {
    assert Span(p, t) > 0;
  }

  /** Dashes in front of a text whose gaps are dashes are its separators in front. */
  lemma {:induction false} FrontDashes(t: string)
    ensures TrimLeft(IsDash, Dashed(IsGap, t)) == Dashed(IsGap, TrimLeft(Separates, t))
    decreases |t|
  {
    if t != "" {
      var c := t[0];
      if IsGap(c) {
        var n := Span(IsGap, t);
        FrontDashes(t[n..]);
        GapsSeparate(t[..n]);
        hide All, Span;
        Parted(t, n);
        TrimLeftMore(Separates, t[..n], t[n..]);
        TrimLeftMore(IsDash, "-", Dashed(IsGap, t[n..]));
      } else if c == '-' {
        FrontDashes(t[1..]);
        OneDashSeparates();
        hide All, Span;
        assert t == "-" + t[1..];
        TrimLeftMore(Separates, "-", t[1..]);
        TrimLeftMore(IsDash, "-", Dashed(IsGap, t[1..]));
      } else {
        assert Span(Separates, t) == 0 && Dashed(IsGap, t)[0] == c;
      }
    } else {
      assert Dashed(IsGap, "") == "" && TrimLeft(Separates, "") == "";
    }
  }

  lemma GapsSeparate(a: string)
    requires All(IsGap, a)
    ensures All(Separates, a) && All(IsDash, "-")
  {
    assert forall i :: 0 <= i < |a| ==> IsGap(a[i]);
  }

  lemma OneDashSeparates()
    ensures All(Separates, "-") && All(IsDash, "-")
  {
  }

  /** Both passes together turn each run of separators into one dash. */
  lemma {:induction false} BothPasses(t: string)
    ensures Dashed(IsDash, Dashed(IsGap, t)) == Dashed(Separates, t)
    decreases |t|
  {
    if t != "" {
      var once, c := Dashed(IsGap, t), t[0];
      if Separates(c) {
        assert once != "" && once[0] == '-';
        DashedRun(IsDash, once);
        DashedRun(Separates, t);
        FrontDashes(t);
        BothPasses(TrimLeft(Separates, t));
      } else {
        assert once == [c] + Dashed(IsGap, t[1..]) && once[1..] == Dashed(IsGap, t[1..]);
        BothPasses(t[1..]);
      }
    }
  }

  // ---- Words and dashes -------------------------------------------------

  lemma TrimRightMore(p: char -> bool, a: string, b: string)
    requires TrimRight(p, b) != ""
    ensures TrimRight(p, a + b) == a + TrimRight(p, b)
  {
    var n := Kept(p, b);
    hide All, Kept;
    assert b == b[..n] + b[n..] && a + b == (a + b[..n]) + b[n..];
    assert (a + b[..n])[|a + b[..n]| - 1] == b[n - 1];
    KeptOf(p, a + b[..n], b[n..]);
  }

  lemma TrimRightBare(p: char -> bool, a: string, b: string)
    requires a != "" && !p(a[|a| - 1]) && All(p, b)
    ensures TrimRight(p, a + b) == a
  {
    hide All;
    KeptOf(p, a, b);
  }

  /** Where the words still to come are known, a word begun is put in front of them. */
  lemma {:induction false} JoinedFrom(t: string, word: string)
    requires All(LowerWord, t) && word != "" && word[|word| - 1] != '-'
    ensures WordsFrom(t, word) != []
    ensures Join("-", WordsFrom(t, word)) == TrimRight(IsDash, word + Dashed(Separates, t))
    decreases |t|
  {
    if t == "" {
      assert word + "" == word;
      EmptyDash();
      TrimRightBare(IsDash, word, "");
    } else {
      var c := t[0];
      assert LowerWord(c) && All(LowerWord, t[1..]) by { LowerTail(t, 1); }
      assert t == [c] + t[1..];
      if Separates(c) {
        hide All;
        JoinedAfter(t, word);
      } else {
        LowerKinds(c);
        JoinedFrom(t[1..], word + [c]);
        Assoc(word, [c], Dashed(Separates, t[1..]));
      }
    }
  }

  lemma LowerKinds(c: char)
    requires LowerWord(c) && !Separates(c)
    ensures WordChar(c) && LowerChar(c) == c && c != '-'
  {
  }

  lemma EmptyDash()
    ensures All(IsDash, "") && All(IsDash, "-")
  {
  }

  lemma LowerTail(t: string, n: nat)
    requires All(LowerWord, t) && n <= |t|
    ensures All(LowerWord, t[n..])
  {
  }

  /** A word ends at a run of separators. */
  lemma JoinedAfter(t: string, word: string)
    requires t != "" && Separates(t[0]) && All(LowerWord, t)
    requires word != "" && word[|word| - 1] != '-'
    ensures Join("-", WordsFrom(t, word)) == TrimRight(IsDash, word + Dashed(Separates, t))
    ensures WordsFrom(t, word) != []
    decreases |t|, 0
  {
    var n := Span(Separates, t);
    var rest := t[n..];
    assert n > 0;
    AfterRun(t, n);
    DashedRun(Separates, t);
    assert WordsFrom(t, word) == [word] + WordsFrom(rest, "");
    LowerTail(t, n);
    EmptyDash();
    assert rest == "" ==> WordsFrom(rest, "") == [] && Dashed(Separates, rest) == "";
    assert rest != "" ==> !Separates(rest[0]);
    hide All, WordsFrom, Dashed, Separates, LowerWord, Span;
    if rest == "" {
      TrimRightBare(IsDash, word, "-");
      assert "-" + "" == "-" && [word] + [] == [word];
    } else {
      var later := WordsFrom(rest, "");
      JoinedRest(rest);
      WordThen(word, later);
      TrimRightMore(IsDash, word + "-", Dashed(Separates, rest));
      Assoc(word, "-", Dashed(Separates, rest));
    }
  }

  /** The words of a text that begins with one. */
  lemma JoinedRest(rest: string)
    requires rest != "" && !Separates(rest[0]) && All(LowerWord, rest)
    ensures WordsFrom(rest, "") != []
    ensures Join("-", WordsFrom(rest, "")) == TrimRight(IsDash, Dashed(Separates, rest))
    ensures TrimRight(IsDash, Dashed(Separates, rest)) != ""
    decreases |rest|, 1
  {
    var c := rest[0];
    assert LowerWord(c);
    LowerKinds(c);
    LowerTail(rest, 1);
    assert "" + [c] == [c] && WordsFrom(rest, "") == WordsFrom(rest[1..], [c]);
    assert Dashed(Separates, rest) == [c] + Dashed(Separates, rest[1..]);
    hide All, WordsFrom, Dashed, Separates;
    JoinedFrom(rest[1..], [c]);
    JoinNotEmpty(rest[1..], [c]);
  }

  lemma JoinNotEmpty(t: string, word: string)
    requires word != "" && word[|word| - 1] != '-'
    ensures TrimRight(IsDash, word + Dashed(Separates, t)) != ""
  {
    var all := word + Dashed(Separates, t);
    assert all[|word| - 1] == word[|word| - 1];
    NoneKept(IsDash, all, |word| - 1);
  }

  lemma NoneKept(p: char -> bool, s: string, i: nat)
    requires i < |s|
    ensures Kept(p, s) == 0 ==> p(s[i])
  {
    assert s[0..] == s;
  }

  lemma WordThen(word: string, later: seq<string>)
    requires later != []
    ensures Join("-", [word] + later) == word + "-" + Join("-", later)
  {
    assert ([word] + later)[1..] == later;
  }

  lemma AfterRun(t: string, n: nat)
    requires n == Span(Separates, t) && n > 0
    ensures WordsFrom(t[1..], "") == WordsFrom(t[n..], "")
  {
    var run := t[1..n];
    assert forall i :: 0 <= i < |run| ==> run[i] == t[..n][i + 1];
    assert All(Separates, run);
    hide All, WordsFrom, Separates, Span;
    SkipSeparators(run, t[n..]);
    assert t[1..] == run + t[n..];
  }

  /** Without separators in front. */
  lemma WordsFirst(t: string)
    requires All(LowerWord, t) && (t != "" ==> !Separates(t[0]))
    ensures Join("-", WordsFrom(t, "")) == TrimRight(IsDash, Dashed(Separates, t))
  {
    if t != "" { JoinedRest(t); }
  }

  lemma TrimmedDashes(t: string)
    requires All(LowerWord, t)
    ensures Join("-", WordsFrom(t, "")) == Trim(IsDash, Dashed(Separates, t))
  {
    var n := Span(Separates, t);
    var rest := t[n..];
    LowerTail(t, n);
    WordsFirst(rest);
    hide All;
    Parted(t, n);
    SkipSeparators(t[..n], rest);
    FirstDashes(t);
  }

  lemma FirstDashes(t: string)
    ensures TrimLeft(IsDash, Dashed(Separates, t)) == Dashed(Separates, TrimLeft(Separates, t))
  {
    var rest := TrimLeft(Separates, t);
    EmptyDash();
    if t != "" && Separates(t[0]) { DashedRun(Separates, t); }
    assert rest == "" ==> Dashed(Separates, rest) == "";
    assert rest != "" ==> Dashed(Separates, rest)[0] == rest[0] && !IsDash(rest[0]);
    hide All, Dashed;
    TrimLeftMore(IsDash, "-", Dashed(Separates, rest));
    StopsAtOnce(Dashed(Separates, rest));
  }

  lemma StopsAtOnce(x: string)
    ensures x == "" || !IsDash(x[0]) ==> TrimLeft(IsDash, x) == x
  {
  }

  /** For every label: its words, in lower case and in order, with one dash between them. */
  lemma SlugIsWords(t: string)
    ensures Slugify(t) == Join("-", WordsFrom(t, ""))
  {
    var low := Strip(Lower(t));
    StrippedLower(t);
    hide Strip, Filtered, Dashed, Lower, WordsFrom, Trim;
    FilteredChars(low);
    BothPasses(Filtered(low));
    TrimmedDashes(Filtered(low));
    StrippedWords(Lower(t));
    WordsOfLower(t, "");
  }
}
