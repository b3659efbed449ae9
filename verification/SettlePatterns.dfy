/** Stripping a token a second time. The NFS patterns never find anything more; the HTTP
    patterns do in a token that holds a RAM disk token inside another. */
module SettlePatterns {
  import opened Url
  import opened Kernelopt
  import opened StripTokens
  import opened UbuntuModes

  // ---- Matches, character by character ----------------------------------

  predicate At(h: string, t: string, i: nat) {
    i + |h| <= |t| && forall k :: 0 <= k < |h| ==> h[k] == t[i + k]
  }

  predicate LeftEdge(t: string, i: nat)
    requires i <= |t|
  {
    i == 0 || !IsWord(t[i - 1])
  }

  predicate RightEdge(p: Pattern, t: string, i: nat)
    requires i + |HeadOf(p)| <= |t|
  {
    match p
    case ToEnd(head, some) => some ==> i + |head| < |t|
    case Exact(text) => i + |text| == |t| || !IsWord(t[i + |text|])
  }

  lemma MatchMeans(p: Pattern, t: string, i: nat)
    ensures MatchAt(p, t, i) <==> At(HeadOf(p), t, i) && LeftEdge(t, i) && RightEdge(p, t, i)
  {
    var h := HeadOf(p);
    if i + |h| <= |t| {
      var u := t[i..][..|h|];
      assert forall k :: 0 <= k < |h| ==> u[k] == t[i + k];
      if At(h, t, i) { assert u == h; }
    }
  }

  /** A match in a suffix is one in the text, unless it starts the suffix. */
  lemma SuffixAlike(p: Pattern, t: string, m: nat, k: nat)
    requires m <= |t| && HeadOf(p) != "" && IsWord(HeadOf(p)[0])
    requires m < |t| ==> !IsWord(t[m])
    ensures MatchAt(p, t[m..], k) <==> MatchAt(p, t, m + k)
  {
    MatchMeans(p, t[m..], k);
    MatchMeans(p, t, m + k);
    hide MatchAt;
    var h := HeadOf(p);
    assert forall j :: 0 <= j < |t| - m ==> t[m..][j] == t[m + j];
    if m + k + |h| <= |t| {
      assert At(h, t[m..], k) <==> At(h, t, m + k) by { SuffixAt(h, t, m, k); }
      if k == 0 { assert t[m] != h[0]; }
    }
  }

  lemma SuffixAt(h: string, t: string, m: nat, k: nat)
    requires m <= |t|
    ensures At(h, t[m..], k) <==> At(h, t, m + k)
  {
    if m + k + |h| <= |t| {
      assert forall j :: 0 <= j < |h| ==> (h[j] == t[m..][k + j] <==> h[j] == t[(m + k) + j]);
    }
  }

  // ---- Taking out whole matches -----------------------------------------

  predicate WordNear(h: string, k: nat)
    requires 0 < k < |h|
  {
    IsWord(h[k - 1]) || IsWord(h[k])
  }

  /** No two characters in a row are outside words. */
  predicate NoDouble(h: string) { forall k :: 0 < k < |h| ==> WordNear(h, k) }

  predicate WordEnds(h: string) { h != "" && IsWord(h[0]) && IsWord(h[|h| - 1]) }

  /** The text before the first match, and what the removal leaves after it. */
  lemma Junction(p: Pattern, t: string) returns (n: nat, b: string, s: string)
    requires p.Exact? && WordEnds(p.text) && FirstMatch(p, t, 0) <= |t|
    ensures n == FirstMatch(p, t, 0) && n + |p.text| <= |t|
    ensures b == t[n + |p.text|..] && s == Sub(p, b) && Sub(p, t) == t[..n] + s
    ensures MatchAt(p, t, n) && At(p.text, t, n) && LeftEdge(t, n)
    ensures b != "" ==> !IsWord(b[0])
    ensures b == "" <==> s == ""
    ensures s != "" ==> s[0] == b[0]
  {
    hide MatchAt, FirstMatch, Sub, Plain, At;
    n := FirstMatch(p, t, 0);
    SubFirst(p, t);
    MatchMeans(p, t, n);
    b := t[n + |p.text|..];
    s := Sub(p, b);
    if b != "" {
      assert b[0] == t[n + |p.text|];
      OtherHeadStays(p, b);
    } else {
      ShortPlain(p, b);
      SubPlain(p, b);
    }
  }

  lemma SubFirst(p: Pattern, t: string)
    requires p.Exact? && p.text != "" && FirstMatch(p, t, 0) <= |t|
    ensures
      var n := FirstMatch(p, t, 0);
      && n + |p.text| <= |t| && MatchAt(p, t, n)
      && Sub(p, t) == t[..n] + Sub(p, t[n + |p.text|..])
  {
    hide Sub;
    MatchMeans(p, t, FirstMatch(p, t, 0));
    hide *;
    SubOnce(p, t, FirstMatch(p, t, 0));
  }

  lemma SubOnce(p: Pattern, t: string, n: nat)
    requires p.Exact? && p.text != "" && FirstMatch(p, t, 0) == n && n + |p.text| <= |t|
    ensures Sub(p, t) == t[..n] + Sub(p, t[n + |p.text|..])
  {
    hide MatchAt, FirstMatch;
  }

  lemma OtherHeadStays(p: Pattern, b: string)
    requires HeadOf(p) != "" && b != "" && b[0] != HeadOf(p)[0]
    ensures Sub(p, b) != "" && Sub(p, b)[0] == b[0]
  {
    hide Sub;
    MatchMeans(p, b, 0);
    hide MatchAt;
    SubKeepsHead(p, b, 1);
    assert Sub(p, b)[..1][0] == Sub(p, b)[0] && b[..1][0] == b[0];
  }

  lemma WordLast(h: string, t: string, i: nat)
    requires WordEnds(h) && At(h, t, i)
    ensures IsWord(t[i + |h| - 1])
  {
    assert h[|h| - 1] == t[i + (|h| - 1)];
  }

  /** Removing matches brings no match of q about that would lie over or left of the first
      of them. */
  lemma NoneAcross(p: Pattern, q: Pattern, t: string, i: nat)
    requires p.Exact? && WordEnds(p.text) && FirstMatch(p, t, 0) <= |t|
    requires q.Exact? && WordEnds(q.text) && i < FirstMatch(p, t, 0) && MatchAt(q, Sub(p, t), i)
    ensures
      var n := FirstMatch(p, t, 0);
      if i + |q.text| <= n then MatchAt(q, t, i)
      else !IsWord(q.text[n - i - 1]) && !IsWord(q.text[n - i])
  {
    hide MatchAt, Sub, FirstMatch, At, WordEnds;
    var n, b, s := Junction(p, t);
    var u := Sub(p, t);
    TailOfSum(t[..n], s);
    if i + |q.text| <= n {
      assert t[..n] == u[..n];
      SharedHead(q, t, u, n, i);
    } else {
      OverJunction(q, u, n, i);
      assert u[n] == s[0] && u[n - 1] == t[n - 1];
    }
  }

  lemma SharedHead(q: Pattern, t: string, u: string, n: nat, i: nat)
    requires q.Exact? && WordEnds(q.text) && n <= |t| && n <= |u| && t[..n] == u[..n] && LeftEdge(t, n)
    requires i + |q.text| <= n && MatchAt(q, u, i)
    ensures MatchAt(q, t, i)
  {
    MatchMeans(q, u, i);
    MatchMeans(q, t, i);
    hide MatchAt;
    assert forall k :: 0 <= k < n ==> u[..n][k] == t[..n][k];
    assert forall k :: 0 <= k < n ==> u[k] == t[k];
    assert At(q.text, t, i);
    WordLast(q.text, t, i);
  }

  lemma OverJunction(q: Pattern, u: string, n: nat, i: nat)
    requires i < n < i + |HeadOf(q)| && MatchAt(q, u, i)
    ensures n < |u| && u[n - 1] == HeadOf(q)[n - i - 1] && u[n] == HeadOf(q)[n - i]
  {
    MatchMeans(q, u, i);
    hide MatchAt;
  }

  /** Removing the matches of p leaves none of p, and none of q where there was none. */
  lemma {:induction false} WholeSub(p: Pattern, q: Pattern, t: string)
    requires p.Exact? && WordEnds(p.text) && q.Exact? && WordEnds(q.text) && NoDouble(q.text)
    requires q == p || Plain(q, t)
    ensures Plain(q, Sub(p, t))
    decreases |t|
  {
    hide MatchAt, Sub, FirstMatch, Plain, WordEnds, NoDouble;
    if FirstMatch(p, t, 0) > |t| {
      NoFirst(p, t);
      SubPlain(p, t);
    } else {
      RestAfter(p, q, t);
      var n, b, s := Junction(p, t);
      WholeSub(p, q, b);
      WholeSubStep(p, q, t, n, s);
    }
  }

  lemma RestAfter(p: Pattern, q: Pattern, t: string)
    requires p.Exact? && WordEnds(p.text) && q.Exact? && WordEnds(q.text) && FirstMatch(p, t, 0) <= |t|
    requires q == p || Plain(q, t)
    ensures FirstMatch(p, t, 0) + |p.text| <= |t| && p.text != ""
    ensures q == p || Plain(q, t[FirstMatch(p, t, 0) + |p.text|..])
  {
    hide MatchAt, Sub, FirstMatch, Plain;
    var n, b, s := Junction(p, t);
    if q != p { SuffixPlain(q, t, n + |p.text|); }
  }

  lemma WholeSubStep(p: Pattern, q: Pattern, t: string, n: nat, s: string)
    requires p.Exact? && WordEnds(p.text) && q.Exact? && WordEnds(q.text) && NoDouble(q.text)
    requires n == FirstMatch(p, t, 0) <= |t| && Sub(p, t) == t[..n] + s
    requires q == p || Plain(q, t)
    requires Plain(q, s)
    ensures Plain(q, Sub(p, t))
  {
    var u := Sub(p, t);
    hide MatchAt, Sub, FirstMatch, WordEnds, NoDouble, At, Plain;
    TailOfSum(t[..n], s);
    forall i: nat ensures !MatchAt(q, u, i) {
      if i < n { NoneLeft(p, q, t, i); } else { PlainTail(q, u, n, i - n); }
    }
    NonePlain(q, u);
  }

  lemma NonePlain(q: Pattern, u: string)
    requires forall i: nat :: !MatchAt(q, u, i)
    ensures Plain(q, u)
  {
  }

  lemma TailOfSum(a: string, s: string)
    ensures (a + s)[|a|..] == s
  {
  }

  lemma PlainTail(q: Pattern, u: string, n: nat, k: nat)
    requires n <= |u| && Plain(q, u[n..])
    ensures !MatchAt(q, u, n + k)
  {
    hide MatchAt;
    if MatchAt(q, u, n + k) { SuffixMatch(q, u, n, k); }
  }

  lemma NoneLeft(p: Pattern, q: Pattern, t: string, i: nat)
    requires p.Exact? && WordEnds(p.text) && q.Exact? && WordEnds(q.text) && NoDouble(q.text)
    requires FirstMatch(p, t, 0) <= |t| && i < FirstMatch(p, t, 0)
    requires q == p || Plain(q, t)
    ensures !MatchAt(q, Sub(p, t), i)
  {
    FirstIsFirst(p, t);
    hide MatchAt, Sub, FirstMatch, WordEnds, NoDouble, At;
    if MatchAt(q, Sub(p, t), i) {
      NoneAcross(p, q, t, i);
      NearAt(q.text, FirstMatch(p, t, 0) - i);
    }
  }

  lemma FirstIsFirst(p: Pattern, t: string)
    ensures forall i: nat :: i < FirstMatch(p, t, 0) ==> !MatchAt(p, t, i)
  {
    hide MatchAt;
  }

  lemma NearAt(h: string, k: nat)
    requires NoDouble(h) && 0 < k
    ensures k < |h| ==> IsWord(h[k - 1]) || IsWord(h[k])
  {
    if k < |h| { assert WordNear(h, k); }
  }

  lemma SuffixMatch(p: Pattern, t: string, m: nat, k: nat)
    requires m <= |t| && MatchAt(p, t, m + k)
    ensures MatchAt(p, t[m..], k)
  {
    MatchMeans(p, t[m..], k);
    MatchMeans(p, t, m + k);
    hide MatchAt;
    SuffixAt(HeadOf(p), t, m, k);
    assert forall j :: 0 <= j < |t| - m ==> t[m..][j] == t[m + j];
  }

  lemma NoFirst(p: Pattern, t: string)
    requires FirstMatch(p, t, 0) > |t|
    ensures Plain(p, t)
  {
    hide StartsWith;
  }

  lemma SuffixPlain(q: Pattern, t: string, m: nat)
    requires Plain(q, t) && m <= |t| && HeadOf(q) != "" && IsWord(HeadOf(q)[0])
    requires m < |t| ==> !IsWord(t[m])
    ensures Plain(q, t[m..])
  {
    hide MatchAt;
    forall i: nat ensures !MatchAt(q, t[m..], i) { SuffixAlike(q, t, m, i); }
  }

  /** Cutting the end of a token off brings no whole match about. */
  lemma CutKeepsPlain(p: Pattern, q: Pattern, t: string)
    requires p.ToEnd? && p.head != "" && q.Exact? && WordEnds(q.text) && Plain(q, t)
    ensures Plain(q, Sub(p, t))
  {
    var n := FirstMatch(p, t, 0);
    hide MatchAt, FirstMatch;
    if n <= |t| {
      forall i: nat ensures !MatchAt(q, t[..n], i) { CutMatch(p, q, t, n, i); }
    }
  }

  lemma CutMatch(p: Pattern, q: Pattern, t: string, n: nat, i: nat)
    requires n <= |t| && MatchAt(p, t, n) && q.Exact? && WordEnds(q.text)
    ensures MatchAt(q, t[..n], i) ==> MatchAt(q, t, i)
  {
    MatchMeans(p, t, n);
    MatchMeans(q, t, i);
    MatchMeans(q, t[..n], i);
    hide MatchAt;
    if MatchAt(q, t[..n], i) {
      assert At(q.text, t, i);
      WordLast(q.text, t, i);
    }
  }

  lemma CutStaysPlain(p: Pattern, q: Pattern, t: string)
    requires p.ToEnd? && p.head != "" && q.ToEnd? && q.head != "" && Plain(q, t)
    ensures Plain(q, Sub(p, t))
  {
    var n := FirstMatch(p, t, 0);
    hide MatchAt, FirstMatch;
    if n <= |t| {
      forall i: nat ensures !MatchAt(q, t[..n], i) {
        if MatchAt(q, t[..n], i) { MatchInPrefix(q, t, n, i); }
      }
    }
  }

  // ---- The NFS patterns -------------------------------------------------

  lemma NfsWords()
    ensures WordEnds(CASPER.text) && NoDouble(CASPER.text)
    ensures WordEnds(NETBOOT.text) && NoDouble(NETBOOT.text)
  {
    CasperWhole();
    NetbootWhole();
  }

  lemma CasperWhole()
    ensures WordEnds(CASPER.text) && NoDouble(CASPER.text)
  {
  }

  lemma NetbootWhole()
    ensures WordEnds(NETBOOT.text) && NoDouble(NETBOOT.text)
  {
  }

  lemma FourStrips(p: Pattern, q: Pattern, r: Pattern, s: Pattern, t: string)
    ensures StripToken([p, q, r, s], t) == Sub(s, Sub(r, Sub(q, Sub(p, t))))
  {
    hide Sub, StripToken;
    var a := Sub(p, t);
    var b := Sub(q, a);
    StripNext([p, q, r, s], t);
    StripNext([q, r, s], a);
    StripNext([r, s], b);
    StripNext([s], Sub(r, b));
    assert [p, q, r, s][1..] == [q, r, s] && [q, r, s][1..] == [r, s] && [r, s][1..] == [s];
  }

  lemma StripNext(ps: seq<Pattern>, t: string)
    requires ps != []
    ensures StripToken(ps, t) == StripToken(ps[1..], Sub(ps[0], t))
    ensures |ps| == 1 ==> StripToken(ps, t) == Sub(ps[0], t)
  {
    hide Sub;
  }

  /** The NFS patterns leave nothing they would remove. */
  lemma NfsPlainAfter(t: string)
    ensures PlainFor(NFS_PATTERNS, StripToken(NFS_PATTERNS, t))
  {
    Lengths();
    NfsWords();
    hide CASPER, NETBOOT, NFSROOT, NFSOPTS, Plain, Sub, WordEnds, NoDouble, StripToken, MatchAt;
    var a := Sub(CASPER, t);
    var b := Sub(NETBOOT, a);
    var c := Sub(NFSROOT, b);
    WholeSub(CASPER, CASPER, t);
    WholeSub(NETBOOT, CASPER, a);
    WholeSub(NETBOOT, NETBOOT, a);
    CutKeepsPlain(NFSROOT, CASPER, b);
    CutKeepsPlain(NFSROOT, NETBOOT, b);
    SubToEndPlain(NFSROOT, b);
    CutKeepsPlain(NFSOPTS, CASPER, c);
    CutKeepsPlain(NFSOPTS, NETBOOT, c);
    CutStaysPlain(NFSOPTS, NFSROOT, c);
    SubToEndPlain(NFSOPTS, c);
    FourStrips(CASPER, NETBOOT, NFSROOT, NFSOPTS, t);
    FourPlain(CASPER, NETBOOT, NFSROOT, NFSOPTS, Sub(NFSOPTS, c));
    assert NFS_PATTERNS == [CASPER, NETBOOT, NFSROOT, NFSOPTS];
  }

  lemma FourPlain(p: Pattern, q: Pattern, r: Pattern, s: Pattern, t: string)
    requires Plain(p, t) && Plain(q, t) && Plain(r, t) && Plain(s, t)
    ensures PlainFor([p, q, r, s], t)
  {
    hide Plain;
  }

  /** Stripping the NFS arguments of a token again changes nothing, whatever the token. */
  lemma NfsStripTwice(t: string)
    ensures StripToken(NFS_PATTERNS, StripToken(NFS_PATTERNS, t)) == StripToken(NFS_PATTERNS, t)
  {
    hide StripToken, PlainFor, NFS_PATTERNS;
    NfsPlainAfter(t);
    StripPlain(NFS_PATTERNS, StripToken(NFS_PATTERNS, t));
  }
}
