/** Removing kernel arguments by pattern. The patterns hold no white space and match only at
    word boundaries, so they act on one token at a time. */
module StripTokens {
  import opened Text
  import opened Url
  import opened Kernelopt

  /** `\bhead\S+` or `\bhead\S*` up to the end of the token, or `\btext\b`. */
  datatype Pattern = ToEnd(head: string, some: bool) | Exact(text: string)

  function HeadOf(p: Pattern): string { if p.ToEnd? then p.head else p.text }

  predicate MatchAt(p: Pattern, t: string, i: nat) {
    && i <= |t| && StartsWith(t[i..], HeadOf(p))
    && (i == 0 || !IsWord(t[i - 1]))
    && match p
       case ToEnd(head, some) => some ==> i + |head| < |t|
       case Exact(text) => i + |text| == |t| || !IsWord(t[i + |text|])
  }

  /** The first match from index i on, or |t| + 1. */
  function FirstMatch(p: Pattern, t: string, i: nat): (n: nat)
    requires i <= |t| + 1
    ensures i <= n <= |t| + 1
    ensures n <= |t| ==> MatchAt(p, t, n)
    ensures forall j :: i <= j < n ==> !MatchAt(p, t, j)
    decreases |t| + 1 - i
  {
    if i == |t| + 1 || MatchAt(p, t, i) then i else FirstMatch(p, t, i + 1)
  }

  /** `re.sub(pattern, "", t)`. */
  function Sub(p: Pattern, t: string): string
    decreases |t|
  {
    var n := FirstMatch(p, t, 0);
    if HeadOf(p) == "" || n > |t| then t
    else
      match p
      case ToEnd(_, _) => t[..n]
      case Exact(text) => t[..n] + Sub(p, t[n + |text|..])
  }

  /** One token after all patterns, in order. */
  function StripToken(ps: seq<Pattern>, t: string): string
    decreases |ps|
  {
    if ps == [] then t else StripToken(ps[1..], Sub(ps[0], t))
  }

  /** The tokens that are left. */
  function Left(ps: seq<Pattern>, ts: seq<string>): seq<string> {
    if ts == [] then []
    else (if StripToken(ps, ts[0]) == "" then [] else [StripToken(ps, ts[0])]) + Left(ps, ts[1..])
  }

  function StripArgs(ps: seq<Pattern>, args: string): string { Join(" ", Left(ps, Tokens(args))) }

  ghost predicate Plain(p: Pattern, t: string) { forall i: nat :: !MatchAt(p, t, i) }

  ghost predicate PlainFor(ps: seq<Pattern>, t: string) { forall i :: 0 <= i < |ps| ==> Plain(ps[i], t) }

  // ---- Laws -------------------------------------------------------------

  lemma SubPlain(p: Pattern, t: string)
    requires Plain(p, t)
    ensures Sub(p, t) == t
  {
    hide MatchAt;
    assert FirstMatch(p, t, 0) > |t|;
  }

  lemma {:induction false} StripPlain(ps: seq<Pattern>, t: string)
    requires PlainFor(ps, t)
    ensures StripToken(ps, t) == t
    decreases |ps|
  {
    if ps != [] {
      assert Plain(ps[0], t);
      assert forall i :: 0 <= i < |ps[1..]| ==> ps[1..][i] == ps[i + 1];
      hide Plain, Sub;
      SubPlain(ps[0], t);
      StripPlain(ps[1..], t);
    }
  }

  lemma MatchInPrefix(p: Pattern, t: string, n: nat, i: nat)
    requires p.ToEnd? && p.head != "" && n <= |t| && MatchAt(p, t[..n], i)
    ensures MatchAt(p, t, i) && i < n
  {
    assert t[..n][i..][..|p.head|] == t[i..][..|p.head|];
  }

  /** Cutting at the first match leaves no match of that pattern. */
  lemma SubToEndPlain(p: Pattern, t: string)
    requires p.ToEnd? && p.head != ""
    ensures Plain(p, Sub(p, t))
  {
    var n := FirstMatch(p, t, 0);
    var s := Sub(p, t);
    hide MatchAt;
    assert n > |t| ==> forall i: nat :: i <= |t| ==> !MatchAt(p, t, i);
    forall i: nat ensures !MatchAt(p, s, i) {
      if MatchAt(p, s, i) {
        assert t[..|t|] == t;
        MatchInPrefix(p, t, if n <= |t| then n else |t|, i);
      }
    }
  }

  /** No match before index k: the first k characters stay. */
  lemma SubKeepsHead(p: Pattern, t: string, k: nat)
    requires k <= |t| && forall i :: 0 <= i < k ==> !MatchAt(p, t, i)
    ensures |Sub(p, t)| >= k && Sub(p, t)[..k] == t[..k]
  {
    hide MatchAt;
    var n := FirstMatch(p, t, 0);
    if n <= |t| { assert n >= k; }
  }

  /** A token that starts with the pattern goes away. */
  lemma SubWhole(p: Pattern, t: string)
    requires HeadOf(p) != "" && MatchAt(p, t, 0) && (p.Exact? ==> t == p.text)
    ensures Sub(p, t) == ""
  {
    assert FirstMatch(p, t, 0) == 0;
  }

  lemma {:induction false} StripEmpty(ps: seq<Pattern>)
    ensures StripToken(ps, "") == ""
    decreases |ps|
  {
    if ps != [] { StripEmpty(ps[1..]); }
  }

  lemma {:induction false} SubKeepsAll(p: Pattern, t: string)
    requires All(NotSpace, t)
    ensures All(NotSpace, Sub(p, t))
    decreases |t|
  {
    var n := FirstMatch(p, t, 0);
    if HeadOf(p) != "" && n <= |t| {
      var m := n + |HeadOf(p)|;
      assert m <= |t|;
      hide All, MatchAt, FirstMatch;
      Parted(t, n);
      Parted(t, m);
      AllConcat(NotSpace, t[..n], t[n..]);
      AllConcat(NotSpace, t[..m], t[m..]);
      if p.Exact? {
        SubKeepsAll(p, t[m..]);
        AllConcat(NotSpace, t[..n], Sub(p, t[m..]));
      }
    }
  }

  lemma {:induction false} StripKeepsAll(ps: seq<Pattern>, t: string)
    requires All(NotSpace, t)
    ensures All(NotSpace, StripToken(ps, t))
    decreases |ps|
  {
    if ps != [] {
      hide All, Sub;
      SubKeepsAll(ps[0], t);
      StripKeepsAll(ps[1..], Sub(ps[0], t));
    }
  }

  lemma {:induction false} KeptAreTokens(ps: seq<Pattern>, ts: seq<string>)
    requires AreTokens(ts)
    ensures AreTokens(Left(ps, ts))
  {
    if ts != [] {
      assert IsToken(ts[0]) && AreTokens(ts[1..]);
      StripKeepsAll(ps, ts[0]);
      hide All, StripToken;
      KeptAreTokens(ps, ts[1..]);
    }
  }

  /** The tokens of stripped arguments. */
  lemma StripArgsTokens(ps: seq<Pattern>, args: string)
    ensures Tokens(StripArgs(ps, args)) == Left(ps, Tokens(args))
    ensures Strip(StripArgs(ps, args)) == StripArgs(ps, args)
  {
    hide Tokens, Left, AreTokens, Strip;
    KeptAreTokens(ps, Tokens(args));
    TokensOfJoin(Left(ps, Tokens(args)));
    JoinTrimmed(Left(ps, Tokens(args)));
  }

  lemma {:induction false} KeptConcat(ps: seq<Pattern>, a: seq<string>, b: seq<string>)
    ensures Left(ps, a + b) == Left(ps, a) + Left(ps, b)
  {
    hide StripToken;
    if a == [] {
      assert a + b == b;
      assert [] + Left(ps, b) == Left(ps, b);
    } else {
      assert (a + b)[1..] == a[1..] + b;
      KeptConcat(ps, a[1..], b);
      Assoc(if StripToken(ps, a[0]) == "" then [] else [StripToken(ps, a[0])], Left(ps, a[1..]), Left(ps, b));
    }
  }

  /** Tokens the patterns leave alone. */
  predicate Untouched(ps: seq<Pattern>, ts: seq<string>) {
    forall i :: 0 <= i < |ts| ==> ts[i] != "" && StripToken(ps, ts[i]) == ts[i]
  }

  /** Tokens the patterns remove. */
  predicate Removed(ps: seq<Pattern>, ts: seq<string>) {
    forall i :: 0 <= i < |ts| ==> StripToken(ps, ts[i]) == ""
  }

  lemma {:induction false} KeptUntouched(ps: seq<Pattern>, ts: seq<string>)
    requires Untouched(ps, ts)
    ensures Left(ps, ts) == ts
  {
    hide StripToken;
    if ts != [] { KeptUntouched(ps, ts[1..]); }
  }

  lemma {:induction false} KeptRemoved(ps: seq<Pattern>, ts: seq<string>)
    requires Removed(ps, ts)
    ensures Left(ps, ts) == []
  {
    hide StripToken;
    if ts != [] { KeptRemoved(ps, ts[1..]); }
  }

  lemma UntouchedConcat(ps: seq<Pattern>, a: seq<string>, b: seq<string>)
    ensures Untouched(ps, a + b) <==> Untouched(ps, a) && Untouched(ps, b)
  {
    hide StripToken;
    var all := a + b;
    assert forall i :: 0 <= i < |a| ==> all[i] == a[i];
    assert forall i :: 0 <= i < |b| ==> all[|a| + i] == b[i];
  }

  /** One cutting pattern: what is left is left alone by it. */
  lemma {:induction false} KeptTwice(p: Pattern, ts: seq<string>)
    requires p.ToEnd? && p.head != ""
    ensures Untouched([p], Left([p], ts))
  {
    if ts != [] {
      KeptTwice(p, ts[1..]);
      StripOne(p, ts[0]);
      SubToEndPlain(p, ts[0]);
      SubPlain(p, Sub(p, ts[0]));
      StripOne(p, Sub(p, ts[0]));
      hide StripToken, Sub, Plain;
    }
  }

  lemma StripOne(p: Pattern, t: string)
    ensures StripToken([p], t) == Sub(p, t)
  {
    hide Sub;
    assert [p][1..] == [];
  }
}
