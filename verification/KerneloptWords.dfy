/** Which texts mention the word `cdromBoot`: cutting at delimiters and lower-casing
    a token neither lose nor gain a word. */
module KerneloptWords {
  import opened Text
  import opened Url
  import opened Kernelopt

  lemma {:induction false} MentionsConcat(a: string, b: string)
    requires a == "" || b == "" || !IsWord(a[|a| - 1]) || !IsWord(b[0])
    ensures MentionsCdrom(a + b) <==> MentionsCdrom(a) || MentionsCdrom(b)
    decreases |a|
  {
    if a == "" {
      assert a + b == b;
    } else if IsWord(a[0]) {
      var n := Span(IsWord, a);
      assert (a + b)[..n] == a[..n] && (a + b)[n..] == a[n..] + b;
      SpanOf(IsWord, a[..n], a[n..] + b);
      assert a[..n] + (a[n..] + b) == a + b;
      MentionsConcat(a[n..], b);
    } else {
      assert (a + b)[1..] == a[1..] + b;
      MentionsConcat(a[1..], b);
    }
  }

  /** Two strings with word characters in the same places and equal up to case there. */
  ghost predicate SameWords(s: string, t: string) {
    |s| == |t| && forall i :: 0 <= i < |s| ==>
      IsWord(s[i]) == IsWord(t[i]) && (IsWord(s[i]) ==> LowerChar(s[i]) == LowerChar(t[i]))
  }

  lemma {:induction false} MentionsSameWords(s: string, t: string)
    requires SameWords(s, t)
    ensures MentionsCdrom(s) <==> MentionsCdrom(t)
    decreases |s|
  {
    if s != "" {
      if IsWord(s[0]) {
        var n := Span(IsWord, s);
        assert All(IsWord, t[..n]) by {
          assert forall i :: 0 <= i < n ==> IsWord(s[..n][i]) && s[..n][i] == s[i];
        }
        SpanOf(IsWord, t[..n], t[n..]);
        assert t[..n] + t[n..] == t;
        assert Lower(s[..n]) == Lower(t[..n]);
        MentionsSameWords(s[n..], t[n..]);
      } else {
        MentionsSameWords(s[1..], t[1..]);
      }
    }
  }

  lemma {:induction false} MentionsNonWords(s: string)
    requires forall i :: 0 <= i < |s| ==> !IsWord(s[i])
    ensures !MentionsCdrom(s)
  {
    if s != "" { MentionsNonWords(s[1..]); }
  }

  lemma MentionsTrim(p: char -> bool, s: string)
    requires forall c :: p(c) ==> !IsWord(c)
    ensures MentionsCdrom(Trim(p, s)) <==> MentionsCdrom(s)
  {
    var a, b := TrimSplit(p, s);
    MentionsNonWords(a);
    MentionsNonWords(b);
    MentionsConcat(a + Trim(p, s), b);
    MentionsConcat(a, Trim(p, s));
  }

  /** Cutting at a non-word character separates the words on its two sides. */
  lemma MentionsCut(p: char -> bool, s: string)
    requires forall c :: !p(c) ==> !IsWord(c)
    ensures MentionsCdrom(s) <==> MentionsCdrom(Before(p, s)) || MentionsCdrom(After(p, s))
  {
    var n := Span(p, s);
    if n == |s| {
      assert s[..n] == s;
    } else {
      assert s == s[..n] + s[n..];
      MentionsConcat(s[..n], s[n..]);
      assert s[n..][1..] == s[n + 1..];
    }
  }

  lemma MentionsTagged(mark: string, s: string)
    requires |mark| == 1 && !IsWord(mark[0])
    ensures MentionsCdrom(Tagged(mark, s)) <==> MentionsCdrom(s)
  {
    if s != "" { assert (mark + s)[1..] == s; }
  }

  ghost predicate PartsMention(c: Parts) {
    MentionsCdrom(c.netloc) || MentionsCdrom(c.path) || MentionsCdrom(c.params)
    || MentionsCdrom(c.query) || MentionsCdrom(c.fragment)
  }

  /** A leading word of another length is passed over. */
  lemma MentionsAfterWord(word: string, rest: string)
    requires word != "" && |word| != 9 && All(IsWord, word)
    requires rest != "" ==> !IsWord(rest[0])
    ensures MentionsCdrom(word + rest) <==> MentionsCdrom(rest)
  {
    assert IsWord(word[0]);
    hide All;
    SpanOf(IsWord, word, rest);
    assert (word + rest)[..|word|] == word && (word + rest)[|word|..] == rest;
  }

  lemma SchemeWords()
    ensures !MentionsCdrom("http://") && !MentionsCdrom("https://")
  {
    hide MentionsCdrom;
    assert "http" + "://" == "http://" && "https" + "://" == "https://";
    MentionsAfterWord("http", "://");
    MentionsAfterWord("https", "://");
    MentionsNonWords("://");
  }

  lemma SchemeHasNoCdrom(head: string)
    requires Lower(head) == "http://" || Lower(head) == "https://"
    ensures head != "" && !IsWord(head[|head| - 1]) && !MentionsCdrom(head)
  {
    assert Lower(head)[|head| - 1] == '/';
    hide MentionsCdrom, Lower;
    SchemeWords();
    LowerSameWords(head);
  }

  lemma MentionsScheme(head: string, rest: string)
    requires Lower(head) == "http://" || Lower(head) == "https://"
    ensures MentionsCdrom(head + rest) <==> MentionsCdrom(rest)
  {
    hide MentionsCdrom;
    SchemeHasNoCdrom(head);
    MentionsConcat(head, rest);
  }

  lemma MentionsUnparse(c: Parts)
    requires WellFormed(c)
    ensures MentionsCdrom(Unparse(c)) <==> PartsMention(c)
  {
    var head := c.scheme + "://";
    assert Lower(head) == head;
    MentionsScheme(head, c.netloc + UnparseTail(c));
    assert Unparse(c) == head + (c.netloc + UnparseTail(c));
    hide All, MentionsCdrom, LastSegment;
    MentionsConcat(c.netloc, UnparseTail(c));
    var p, q, f := Tagged(";", c.params), Tagged("?", c.query), Tagged("#", c.fragment);
    MentionsConcat(c.path + p + q, f);
    MentionsConcat(c.path + p, q);
    MentionsConcat(c.path, p);
    MentionsTagged(";", c.params);
    MentionsTagged("?", c.query);
    MentionsTagged("#", c.fragment);
  }

  lemma MentionsTarget(target: string)
    ensures MentionsCdrom(target) <==>
            MentionsCdrom(PathOf(target)) || MentionsCdrom(ParamsOf(target))
  {
    var last := LastSegment(target);
    assert target == target[..last] + target[last..];
    MentionsConcat(target[..last], target[last..]);
    MentionsCut(NotSemicolon, target[last..]);
    MentionsConcat(target[..last], Before(NotSemicolon, target[last..]));
  }

  lemma MentionsTail(scheme: string, net: string, tail: string)
    ensures PartsMention(ParseTail(scheme, net, tail)) <==>
            MentionsCdrom(net) || MentionsCdrom(tail)
  {
    hide All, MentionsCdrom, PathOf, ParamsOf;
    var body := Before(NotHash, tail);
    MentionsCut(NotHash, tail);
    MentionsCut(NotQuestion, body);
    MentionsTarget(Before(NotQuestion, body));
  }

  lemma SchemeSplit(u: string)
    requires IsHttp(u)
    ensures
      var head := u[..|SchemeOf(u)| + 3];
      Lower(head) == "http://" || Lower(head) == "https://"
  {
    var k := |SchemeOf(u)| + 3;
    assert Lower(u[..k]) == Lower(u)[..k];
  }

  lemma MentionsRest(scheme: string, rest: string)
    ensures PartsMention(ParseTail(scheme, Before(NotNetEnd, rest), TailOf(rest)))
       <==> MentionsCdrom(rest)
  {
    var net, tail := Before(NotNetEnd, rest), TailOf(rest);
    assert rest == net + tail && (tail != "" ==> !IsWord(tail[0]));
    hide All, MentionsCdrom, ParseTail, PartsMention;
    MentionsConcat(net, tail);
    MentionsTail(scheme, net, tail);
  }

  lemma MentionsParse(u: string)
    requires IsHttp(u)
    ensures MentionsCdrom(u) <==> PartsMention(ParseUrl(u))
  {
    SchemeSplit(u);
    hide All, MentionsCdrom, ParseTail, IsHttp, Lower, PartsMention, TailOf, Before;
    var k := |SchemeOf(u)| + 3;
    assert u == u[..k] + u[k..];
    MentionsScheme(u[..k], u[k..]);
    MentionsRest(SchemeOf(u), u[k..]);
  }

  lemma LowerSameWords(s: string)
    ensures MentionsCdrom(Lower(s)) <==> MentionsCdrom(s)
  {
    assert SameWords(s, Lower(s));
    hide SameWords, MentionsCdrom, Lower;
    MentionsSameWords(s, Lower(s));
  }

  lemma SlashedSameWords(s: string)
    ensures MentionsCdrom(Slashed(s)) <==> MentionsCdrom(s)
  {
    assert SameWords(s, Slashed(s));
    hide SameWords, MentionsCdrom, Slashed;
    MentionsSameWords(s, Slashed(s));
  }
}
