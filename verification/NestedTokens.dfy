/** The HTTP patterns on one token: they settle in one pass exactly when the token does not
    hold `root=/dev/ram0` between `root=` and `/dev/ram0`, before anything they cut off. */
module NestedTokens {
  import opened Url
  import opened Kernelopt
  import opened StripTokens
  import opened UbuntuModes
  import opened SettlePatterns

  const TAIL := "/dev/ram0"

  /** A RAM disk token with another inside. */
  const NESTED := "root=" + RAM0.text + TAIL

  const NESTING := Exact(NESTED)

  /** The patterns that cut the rest of a token off. */
  const CUTTERS: seq<Pattern> := [RAMDISK, URL, NOCLOUD_NET, NOCLOUD, CLOUD_CONFIG]

  /** None of these patterns matches before index i. */
  predicate Clear(qs: seq<Pattern>, t: string, i: nat) {
    forall k, j :: 0 <= k < |qs| && 0 <= j < i ==> !MatchAt(qs[k], t, j)
  }

  /** The token holds a RAM disk token inside another, and nothing before it is cut off. */
  predicate Nested(t: string) {
    exists i :: 0 <= i <= |t| && MatchAt(NESTING, t, i) && Clear(CUTTERS, t, i)
  }

  /** The token holds a RAM disk token, and nothing before it is cut off. */
  predicate Exposed(t: string) {
    exists i :: 0 <= i <= |t| && MatchAt(RAM0, t, i) && Clear(CUTTERS, t, i)
  }

  // ---- Characters -------------------------------------------------------

  /** The characters of a RAM disk token. */
  lemma RamChars()
    ensures RAM0.Exact? && |RAM0.text| == 14 && RAM0.text[0] == 'r' && RAM0.text[1] == 'o'
    ensures RAM0.text[2] == 'o' && RAM0.text[3] == 't' && RAM0.text[4] == '=' && RAM0.text[5] == '/'
    ensures RAM0.text[6] == 'd' && RAM0.text[7] == 'e' && RAM0.text[8] == 'v' && RAM0.text[9] == '/'
    ensures RAM0.text[10] == 'r' && RAM0.text[11] == 'a' && RAM0.text[12] == 'm' && RAM0.text[13] == '0'
  {
  }

  lemma TailChars()
    ensures |TAIL| == 9 && forall k :: 0 <= k < 9 ==> TAIL[k] == RAM0.text[5 + k]
  {
    assert RAM0.text == "root=" + TAIL;
    assert |"root="| == 5;
  }

  lemma NestedChars()
    ensures |NESTED| == 28 && |RAM0.text| == 14 && |TAIL| == 9
    ensures forall k :: 0 <= k < 5 ==> NESTED[k] == RAM0.text[k]
    ensures forall k :: 0 <= k < 14 ==> NESTED[5 + k] == RAM0.text[k]
    ensures forall k :: 0 <= k < 9 ==> NESTED[19 + k] == TAIL[k]
  {
    assert RAM0.text == "root=" + TAIL;
    assert |"root="| == 5 && |TAIL| == 9;
    hide RAM0, TAIL;
    ThreeParts("root=", RAM0.text, TAIL);
  }

  lemma ThreeParts(a: string, b: string, c: string)
    ensures |a + b + c| == |a| + |b| + |c|
    ensures forall k :: 0 <= k < |a| ==> (a + b + c)[k] == a[k]
    ensures forall k :: 0 <= k < |b| ==> (a + b + c)[|a| + k] == b[k]
    ensures forall k :: 0 <= k < |c| ==> (a + b + c)[|a| + |b| + k] == c[k]
  {
  }

  lemma RamEnds()
    ensures WordEnds(RAM0.text)
  {
    RamChars();
  }

  /** Two characters in a row outside words: only between the key and its value. */
  lemma RamNear(k: nat)
    requires 0 < k < |RAM0.text| && !IsWord(RAM0.text[k - 1]) && !IsWord(RAM0.text[k])
    ensures k == 5
  {
    RamChars();
    hide RAM0;
    assert forall j :: 0 <= j < 14 && j != 4 && j != 5 && j != 9 ==> IsWord(RAM0.text[j]);
  }

  // ---- The cutting patterns ---------------------------------------------

  /** A pattern that cuts, whose head neither starts inside a RAM disk token nor runs into
      one, nor over a place where one was taken out. */
  predicate IsCutter(q: Pattern) {
    && q.ToEnd? && |q.head| >= 4 && IsWord(q.head[0]) && NoDouble(q.head)
    && (forall k :: 0 < k < |q.head| && q.head[k] == 'r' ==> IsWord(q.head[k - 1]))
    && Misses(q, RAM0.text)
  }

  predicate AreCutters(qs: seq<Pattern>) { forall k :: 0 <= k < |qs| ==> IsCutter(qs[k]) }

  lemma RamMisses(q: Pattern)
    requires |HeadOf(q)| >= 4 && HeadOf(q)[0] in "ucdr"
    requires HeadOf(q)[0] == 'd' ==> HeadOf(q)[1] == 's'
    requires HeadOf(q)[0] == 'r' ==> HeadOf(q)[1] == 'a' && HeadOf(q)[3] == 'd'
    ensures Misses(q, RAM0.text)
  {
    RamChars();
    var h := HeadOf(q);
    assert h[0] == 'u' || h[0] == 'c' || h[0] == 'd' || h[0] == 'r';
    hide RAM0, IsWord, HeadOf;
    assert forall j :: 0 <= j < 14 ==> RAM0.text[j] != 'u' && RAM0.text[j] != 'c';
    assert forall j :: 0 <= j < 14 && RAM0.text[j] == 'd' ==> j == 6;
    assert forall j :: 0 <= j < 14 && RAM0.text[j] == 'r' ==> j == 0 || j == 10;
  }

  lemma RamdiskCuts()
    ensures IsCutter(RAMDISK)
  {
    assert RAMDISK.head[0] == 'r' && RAMDISK.head[1] == 'a' && RAMDISK.head[3] == 'd' && |RAMDISK.head| == 13;
    hide Misses;
    RamMisses(RAMDISK);
  }

  lemma UrlCuts()
    ensures IsCutter(URL)
  {
    assert URL.head[0] == 'u' && |URL.head| == 4;
    hide Misses;
    RamMisses(URL);
  }

  lemma NoCloudNetCuts()
    ensures IsCutter(NOCLOUD_NET)
  {
    assert NOCLOUD_NET.head[0] == 'd' && NOCLOUD_NET.head[1] == 's' && |NOCLOUD_NET.head| == 14;
    hide Misses;
    RamMisses(NOCLOUD_NET);
  }

  lemma NoCloudCuts()
    ensures IsCutter(NOCLOUD)
  {
    assert NOCLOUD.head[0] == 'd' && NOCLOUD.head[1] == 's' && |NOCLOUD.head| == 11;
    hide Misses;
    RamMisses(NOCLOUD);
  }

  lemma CloudConfigCuts()
    ensures IsCutter(CLOUD_CONFIG)
  {
    assert CLOUD_CONFIG.head[0] == 'c' && |CLOUD_CONFIG.head| == 17;
    hide Misses;
    RamMisses(CLOUD_CONFIG);
  }

  lemma CuttersCut()
    ensures AreCutters(CUTTERS)
  {
    hide IsCutter, RAMDISK, URL, NOCLOUD_NET, NOCLOUD, CLOUD_CONFIG;
    RamdiskCuts();
    UrlCuts();
    NoCloudNetCuts();
    NoCloudCuts();
    CloudConfigCuts();
  }

  /** No cutting pattern matches inside a RAM disk token or right after one. */
  lemma CutterInside(q: Pattern, t: string, i: nat, j: nat)
    requires IsCutter(q) && MatchAt(RAM0, t, i) && i <= j <= i + |RAM0.text|
    ensures !MatchAt(q, t, j)
  {
    RamEnds();
    RamChars();
    MatchMeans(RAM0, t, i);
    MatchMeans(q, t, j);
    MatchStarts(RAM0, t, i);
    hide RAM0, WordEnds, Misses, MatchAt, MissesAt, StartsWith;
    if j == i + |RAM0.text| {
      WordLast(RAM0.text, t, i);
    } else {
      if MatchAt(q, t, j) { SuffixMatch(q, t, i, j - i); }
      MissedThere(q, RAM0.text, j - i);
      NoMatchInside(q, RAM0.text, t[i..], j - i);
    }
  }

  lemma MatchStarts(p: Pattern, t: string, i: nat)
    requires MatchAt(p, t, i)
    ensures i <= |t| && StartsWith(t[i..], HeadOf(p))
  {
  }

  lemma MissedThere(p: Pattern, h: string, j: nat)
    requires Misses(p, h) && j < |h|
    ensures MissesAt(p, h, j)
  {
  }

  /** A cutting pattern that matches before a RAM disk token ends before it. */
  lemma CutterBefore(q: Pattern, t: string, j: nat, i: nat)
    requires IsCutter(q) && MatchAt(q, t, j) && j < i && MatchAt(RAM0, t, i)
    ensures j + |q.head| <= i < |t|
  {
    RamChars();
    MatchMeans(RAM0, t, i);
    MatchMeans(q, t, j);
    hide MatchAt, RAM0, Misses;
    assert t[i] == RAM0.text[0];
    if j + |q.head| > i { OverJunction(q, t, i, j); }
  }

  // ---- Cutting ----------------------------------------------------------

  lemma {:induction false} ToEndsCut(qs: seq<Pattern>, t: string)
    requires AreCutters(qs)
    ensures |StripToken(qs, t)| <= |t| && StripToken(qs, t) == t[..|StripToken(qs, t)|]
    decreases |qs|
  {
    if qs != [] {
      hide IsCutter;
      CutIsHead(qs[0], t);
      hide Sub;
      assert forall k :: 0 <= k < |qs[1..]| ==> qs[1..][k] == qs[k + 1];
      ToEndsCut(qs[1..], Sub(qs[0], t));
    }
  }

  lemma CutIsHead(q: Pattern, t: string)
    requires IsCutter(q)
    ensures |Sub(q, t)| <= |t| && Sub(q, t) == t[..|Sub(q, t)|]
  {
    hide MatchAt, FirstMatch, Misses, NoDouble;
  }

  /** A RAM disk token is left by one cutting pattern exactly when it is not cut off, and
      what comes before it is the same to all of them. */
  lemma CutOne(q: Pattern, t: string, i: nat)
    requires IsCutter(q)
    ensures MatchAt(RAM0, Sub(q, t), i) <==>
            MatchAt(RAM0, t, i) && forall j :: 0 <= j < i ==> !MatchAt(q, t, j)
  {
    RamEnds();
    RamChars();
    var n := FirstMatch(q, t, 0);
    var m := if n <= |t| then n else |t|;
    FirstIsFirst(q, t);
    CutAtFirst(q, t);
    hide FirstMatch, Sub, Misses, RAM0, WordEnds, NoDouble;
    MatchMeans(RAM0, t, i);
    MatchMeans(RAM0, t[..m], i);
    hide MatchAt;
    if MatchAt(RAM0, t[..m], i) {
      if n <= |t| { CutMatch(q, RAM0, t, n, i); } else { assert t[..|t|] == t; }
    }
    if MatchAt(RAM0, t, i) && forall j :: 0 <= j < i ==> !MatchAt(q, t, j) {
      if n <= |t| {
        if i <= n <= i + |RAM0.text| { CutterInside(q, t, i, n); }
      } else {
        assert t[..|t|] == t;
      }
    }
  }

  lemma CutAtFirst(q: Pattern, t: string)
    requires IsCutter(q)
    ensures
      var n := FirstMatch(q, t, 0);
      Sub(q, t) == t[..if n <= |t| then n else |t|]
  {
    hide MatchAt, FirstMatch, Misses, NoDouble;
  }

  /** A cutting pattern before a RAM disk token that was left matches after the cut as it
      did before. */
  lemma CutBefore(p: Pattern, q: Pattern, t: string, i: nat, j: nat)
    requires IsCutter(p) && IsCutter(q) && j < i && MatchAt(RAM0, Sub(p, t), i) && MatchAt(RAM0, t, i)
    ensures MatchAt(q, Sub(p, t), j) <==> MatchAt(q, t, j)
  {
    var u := Sub(p, t);
    CutIsHead(p, t);
    hide Sub;
    if MatchAt(q, u, j) { MatchInPrefix(q, t, |u|, j); }
    if MatchAt(q, t, j) {
      CutterBefore(q, t, j, i);
      MatchMeans(q, t, j);
      MatchMeans(q, u, j);
      MatchMeans(RAM0, u, i);
      hide MatchAt;
    }
  }

  /** A RAM disk token is left exactly when nothing before it is cut off. */
  lemma {:induction false} CutKeeps(qs: seq<Pattern>, t: string, i: nat)
    requires AreCutters(qs)
    ensures MatchAt(RAM0, StripToken(qs, t), i) <==> MatchAt(RAM0, t, i) && Clear(qs, t, i)
    decreases |qs|
  {
    hide IsCutter, MatchAt, Sub, RAM0, StripToken;
    if qs == [] {
      StripNone(t);
    } else {
      var rest, u := qs[1..], Sub(qs[0], t);
      assert forall k :: 0 <= k < |rest| ==> rest[k] == qs[k + 1];
      StripNext(qs, t);
      CutKeeps(rest, u, i);
      CutOne(qs[0], t, i);
      if MatchAt(RAM0, u, i) && MatchAt(RAM0, t, i) { ClearAlike(qs[0], rest, t, i); }
      ClearCons(qs, t, i);
    }
  }

  lemma StripNone(t: string)
    ensures StripToken([], t) == t
  {
  }

  lemma ClearCons(qs: seq<Pattern>, t: string, i: nat)
    requires qs != []
    ensures Clear(qs, t, i) <==>
            (forall j :: 0 <= j < i ==> !MatchAt(qs[0], t, j)) && Clear(qs[1..], t, i)
  {
    hide MatchAt;
    assert forall k :: 0 <= k < |qs[1..]| ==> qs[1..][k] == qs[k + 1];
  }

  lemma ClearAlike(p: Pattern, qs: seq<Pattern>, t: string, i: nat)
    requires IsCutter(p) && AreCutters(qs) && MatchAt(RAM0, Sub(p, t), i) && MatchAt(RAM0, t, i)
    ensures Clear(qs, Sub(p, t), i) <==> Clear(qs, t, i)
  {
    hide IsCutter, MatchAt, Sub, RAM0;
    forall k, j | 0 <= k < |qs| && 0 <= j < i
      ensures MatchAt(qs[k], Sub(p, t), j) <==> MatchAt(qs[k], t, j)
    {
      assert IsCutter(qs[k]);
      CutBefore(p, qs[k], t, i, j);
    }
  }

  // ---- A second pass over one token -------------------------------------

  lemma {:induction false} StripShrinks(ps: seq<Pattern>, t: string)
    ensures |StripToken(ps, t)| <= |t|
    decreases |ps|
  {
    if ps != [] {
      hide Sub;
      SubShrinks(ps[0], t);
      StripShrinks(ps[1..], Sub(ps[0], t));
    }
  }

  lemma {:induction false} SubShrinks(p: Pattern, t: string)
    ensures |Sub(p, t)| <= |t|
    ensures HeadOf(p) != "" && FirstMatch(p, t, 0) < |t| ==> |Sub(p, t)| < |t|
    decreases |t|
  {
    hide MatchAt, FirstMatch, Sub;
    if HeadOf(p) != "" && FirstMatch(p, t, 0) <= |t| {
      if p.Exact? {
        SubFirst(p, t);
        SubShrinks(p, t[FirstMatch(p, t, 0) + |p.text|..]);
      } else {
        SubCut(p, t);
      }
    } else {
      NothingCut(p, t);
    }
  }

  lemma SubCut(p: Pattern, t: string)
    requires p.ToEnd? && p.head != "" && FirstMatch(p, t, 0) <= |t|
    ensures Sub(p, t) == t[..FirstMatch(p, t, 0)]
  {
    hide MatchAt, FirstMatch;
  }

  lemma NothingCut(p: Pattern, t: string)
    requires HeadOf(p) == "" || FirstMatch(p, t, 0) > |t|
    ensures Sub(p, t) == t
  {
    hide MatchAt, FirstMatch;
  }

  /** After the cutting patterns, none of them matches. */
  lemma {:induction false} CutPlainAfter(qs: seq<Pattern>, t: string)
    requires AreCutters(qs)
    ensures PlainFor(qs, StripToken(qs, t))
    decreases |qs|
  {
    hide IsCutter, Sub, StripToken, Plain;
    if qs != [] {
      var rest, u := qs[1..], Sub(qs[0], t);
      assert forall k :: 0 <= k < |rest| ==> rest[k] == qs[k + 1];
      assert IsCutter(qs[0]);
      StripNext(qs, t);
      CutPlainAfter(rest, u);
      CutterPlain(qs[0], t);
      ToEndsCut(rest, u);
      HeadStaysPlain(qs[0], u, |StripToken(rest, u)|);
      PlainCons(qs, StripToken(rest, u));
    }
  }

  lemma PlainCons(qs: seq<Pattern>, t: string)
    requires qs != [] && Plain(qs[0], t) && PlainFor(qs[1..], t)
    ensures PlainFor(qs, t)
  {
    hide Plain;
    forall i | 0 <= i < |qs| ensures Plain(qs[i], t) {
      assert i > 0 ==> qs[1..][i - 1] == qs[i];
    }
  }

  lemma CutterPlain(q: Pattern, t: string)
    requires IsCutter(q)
    ensures Plain(q, Sub(q, t))
  {
    hide Sub, Plain, Misses, NoDouble;
    SubToEndPlain(q, t);
  }

  lemma HeadStaysPlain(q: Pattern, t: string, n: nat)
    requires IsCutter(q) && Plain(q, t) && n <= |t|
    ensures Plain(q, t[..n])
  {
    hide MatchAt, Misses, NoDouble;
    forall i: nat ensures !MatchAt(q, t[..n], i) {
      if MatchAt(q, t[..n], i) { MatchInPrefix(q, t, n, i); }
    }
  }

  lemma HttpIsRamAndCutters(t: string)
    ensures StripToken(HTTP_PATTERNS, t) == StripToken(CUTTERS, Sub(RAM0, t))
  {
    hide Sub, StripToken, RAM0, RAMDISK, URL, NOCLOUD_NET, NOCLOUD, CLOUD_CONFIG;
    assert HTTP_PATTERNS[0] == RAM0 && HTTP_PATTERNS[1..] == CUTTERS;
    StripNext(HTTP_PATTERNS, t);
  }

  lemma NotPlainShrinks(t: string)
    requires !Plain(RAM0, t)
    ensures |Sub(RAM0, t)| < |t|
  {
    RamChars();
    var i: nat :| MatchAt(RAM0, t, i);
    MatchMeans(RAM0, t, i);
    hide Sub, MatchAt, RAM0, At;
    FirstBefore(RAM0, t, i);
    SubShrinks(RAM0, t);
  }

  lemma FirstBefore(p: Pattern, t: string, i: nat)
    requires MatchAt(p, t, i)
    ensures FirstMatch(p, t, 0) <= i
  {
    hide MatchAt;
  }

  /** The HTTP patterns leave a token alone that they have stripped exactly when it holds no
      RAM disk token. */
  lemma SettledIsPlain(t: string)
    ensures
      var f := StripToken(HTTP_PATTERNS, t);
      StripToken(HTTP_PATTERNS, f) == f <==> Plain(RAM0, f)
  {
    hide StripToken, Sub, Plain, RAM0, CUTTERS, HTTP_PATTERNS;
    var f := StripToken(HTTP_PATTERNS, t);
    CuttersCut();
    HttpIsRamAndCutters(t);
    HttpIsRamAndCutters(f);
    CutPlainAfter(CUTTERS, Sub(RAM0, t));
    if Plain(RAM0, f) {
      SubPlain(RAM0, f);
      StripPlain(CUTTERS, f);
    } else {
      NotPlainShrinks(f);
      StripShrinks(CUTTERS, Sub(RAM0, f));
    }
  }

  lemma PlainIsHidden(t: string)
    ensures Plain(RAM0, StripToken(HTTP_PATTERNS, t)) <==> !Exposed(Sub(RAM0, t))
  {
    hide StripToken, Sub, MatchAt, RAM0, CUTTERS, HTTP_PATTERNS, Clear;
    CuttersCut();
    HttpIsRamAndCutters(t);
    var s := Sub(RAM0, t);
    forall i: nat ensures MatchAt(RAM0, StripToken(CUTTERS, s), i) <==> MatchAt(RAM0, s, i) && Clear(CUTTERS, s, i) {
      CutKeeps(CUTTERS, s, i);
    }
    forall i: nat | MatchAt(RAM0, s, i) ensures i <= |s| { MatchStarts(RAM0, s, i); }
  }

  // ---- What the first pass brings about ---------------------------------

  /** The token around its first RAM disk token, and what is left of it. */
  datatype Around = Around(t: string, n: nat, b: string, s: string)

  ghost predicate IsAround(x: Around) {
    && x.n == FirstMatch(RAM0, x.t, 0) <= |x.t| && MatchAt(RAM0, x.t, x.n)
    && x.n + |RAM0.text| <= |x.t|
    && x.b == x.t[x.n + |RAM0.text|..] && x.s == Sub(RAM0, x.b) && Sub(RAM0, x.t) == x.t[..x.n] + x.s
    && (x.n == 0 || !IsWord(x.t[x.n - 1]))
    && (x.b != "" ==> !IsWord(x.b[0])) && (x.b == "" <==> x.s == "") && (x.s != "" ==> x.s[0] == x.b[0])
  }

  lemma AroundFirst(t: string) returns (x: Around)
    requires FirstMatch(RAM0, t, 0) <= |t|
    ensures IsAround(x) && x.t == t
  {
    RamEnds();
    RamChars();
    hide RAM0, Sub, FirstMatch, MatchAt, WordEnds, At;
    var n, b, s := Junction(RAM0, t);
    x := Around(t, n, b, s);
  }

  /** Before the first RAM disk token the cutting patterns match as they do after its removal. */
  lemma HeadsAlike(x: Around, q: Pattern, j: nat)
    requires IsAround(x) && IsCutter(q) && j < x.n && x.s != ""
    ensures MatchAt(q, x.t, j) <==> MatchAt(q, Sub(RAM0, x.t), j)
  {
    var u := Sub(RAM0, x.t);
    RamChars();
    hide Sub, FirstMatch, RAM0, Misses, MatchAt, NoDouble;
    assert u[..x.n] == x.t[..x.n];
    if MatchAt(q, x.t, j) {
      CutterBefore(q, x.t, j, x.n);
      SharedCut(q, x.t, u, x.n, j);
    }
    if MatchAt(q, u, j) {
      NotAcross(x, q, j);
      SharedCut(q, u, x.t, x.n, j);
    }
  }

  lemma NotAcross(x: Around, q: Pattern, j: nat)
    requires IsAround(x) && IsCutter(q) && j < x.n && x.s != "" && MatchAt(q, Sub(RAM0, x.t), j)
    ensures j + |q.head| <= x.n
  {
    hide Sub, FirstMatch, RAM0, Misses, MatchAt, NoDouble;
    var u := Sub(RAM0, x.t);
    assert u[x.n] == x.s[0] && u[x.n - 1] == x.t[x.n - 1];
    if j + |q.head| > x.n {
      OverJunction(q, u, x.n, j);
      NearAt(q.head, x.n - j);
    }
  }

  lemma SharedCut(q: Pattern, t: string, u: string, n: nat, j: nat)
    requires q.ToEnd? && n < |t| && n < |u| && t[..n] == u[..n] && j + |q.head| <= n && MatchAt(q, t, j)
    ensures MatchAt(q, u, j)
  {
    MatchMeans(q, t, j);
    MatchMeans(q, u, j);
    hide MatchAt;
    assert forall k :: 0 <= k < n ==> t[..n][k] == u[..n][k];
    assert forall k :: 0 <= k < n ==> t[k] == u[k];
  }

  // ---- The later part of the token --------------------------------------

  lemma RamWord()
    ensures HeadOf(RAM0) != "" && IsWord(HeadOf(RAM0)[0])
    ensures HeadOf(NESTING) != "" && IsWord(HeadOf(NESTING)[0])
  {
    RamChars();
    NestedChars();
    hide RAM0, NESTED;
    assert NESTED[0] == RAM0.text[0];
  }

  /** Matches behind the first RAM disk token, seen in the rest and in the whole. */
  lemma LaterAlike(x: Around, q: Pattern, k: nat)
    requires IsAround(x) && HeadOf(q) != "" && IsWord(HeadOf(q)[0])
    ensures MatchAt(q, x.b, k) <==> MatchAt(q, x.t, x.n + |RAM0.text| + k)
    ensures MatchAt(q, x.s, k) <==> MatchAt(q, Sub(RAM0, x.t), x.n + k)
  {
    RamChars();
    hide RAM0, Sub, MatchAt, FirstMatch;
    var m := x.n + |RAM0.text|;
    assert m < |x.t| ==> x.b != "" && x.b[0] == x.t[m];
    SuffixAlike(q, x.t, m, k);
    var u := Sub(RAM0, x.t);
    TailOfSum(x.t[..x.n], x.s);
    assert x.n < |u| ==> x.s != "" && u[x.n] == x.s[0];
    SuffixAlike(q, u, x.n, k);
  }

  lemma CutterWord(q: Pattern)
    requires IsCutter(q)
    ensures HeadOf(q) != "" && IsWord(HeadOf(q)[0])
  {
    hide Misses, NoDouble;
  }

  /** A cutting pattern before index n + k of what is left matches in the token too, and the
      other way round. */
  lemma ClearLater(x: Around, qs: seq<Pattern>, k: nat)
    requires IsAround(x) && AreCutters(qs) && x.s != ""
    ensures Clear(qs, x.t, x.n + |RAM0.text| + k) <==> Clear(qs, x.t, x.n) && Clear(qs, x.b, k)
    ensures Clear(qs, Sub(RAM0, x.t), x.n + k) <==> Clear(qs, x.t, x.n) && Clear(qs, x.s, k)
  {
    RamChars();
    hide IsCutter, MatchAt, Sub, RAM0, IsAround, FirstMatch;
    var m, u := x.n + |RAM0.text|, Sub(RAM0, x.t);
    forall c, j | 0 <= c < |qs| && 0 <= j
      ensures MatchAt(qs[c], x.b, j) <==> MatchAt(qs[c], x.t, m + j)
      ensures MatchAt(qs[c], x.s, j) <==> MatchAt(qs[c], u, x.n + j)
    {
      assert IsCutter(qs[c]);
      CutterWord(qs[c]);
      LaterAlike(x, qs[c], j);
    }
    forall c, j | 0 <= c < |qs| && 0 <= j < x.n ensures MatchAt(qs[c], x.t, j) <==> MatchAt(qs[c], u, j) {
      assert IsCutter(qs[c]);
      HeadsAlike(x, qs[c], j);
    }
    forall c, j | 0 <= c < |qs| && x.n <= j <= m ensures !MatchAt(qs[c], x.t, j) {
      assert IsCutter(qs[c]);
      AroundMatches(x);
      CutterInside(qs[c], x.t, x.n, j);
    }
    ClearSplit(qs, x.t, x.n, m, x.b, k);
    ClearJoin(qs, x.t, u, x.n, x.s, k);
  }

  lemma AroundMatches(x: Around)
    requires IsAround(x)
    ensures MatchAt(RAM0, x.t, x.n)
  {
  }

  lemma ClearSplit(qs: seq<Pattern>, t: string, n: nat, m: nat, b: string, k: nat)
    requires n <= m
    requires forall c, j :: 0 <= c < |qs| && 0 <= j ==> (MatchAt(qs[c], b, j) <==> MatchAt(qs[c], t, m + j))
    requires forall c, j :: 0 <= c < |qs| && n <= j <= m ==> !MatchAt(qs[c], t, j)
    ensures Clear(qs, t, m + k) <==> Clear(qs, t, n) && Clear(qs, b, k)
  {
    hide MatchAt;
    if Clear(qs, t, n) && Clear(qs, b, k) {
      forall c, j | 0 <= c < |qs| && 0 <= j < m + k ensures !MatchAt(qs[c], t, j) {
        if j > m { assert MatchAt(qs[c], b, j - m) <==> MatchAt(qs[c], t, m + (j - m)); }
      }
    }
  }

  lemma ClearJoin(qs: seq<Pattern>, t: string, u: string, n: nat, s: string, k: nat)
    requires forall c, j :: 0 <= c < |qs| && 0 <= j ==> (MatchAt(qs[c], s, j) <==> MatchAt(qs[c], u, n + j))
    requires forall c, j :: 0 <= c < |qs| && 0 <= j < n ==> (MatchAt(qs[c], t, j) <==> MatchAt(qs[c], u, j))
    ensures Clear(qs, u, n + k) <==> Clear(qs, t, n) && Clear(qs, s, k)
  {
    hide MatchAt;
    if Clear(qs, t, n) && Clear(qs, s, k) {
      forall c, j | 0 <= c < |qs| && 0 <= j < n + k ensures !MatchAt(qs[c], u, j) {
        if j >= n { assert MatchAt(qs[c], s, j - n) <==> MatchAt(qs[c], u, n + (j - n)); }
      }
    }
  }

  // ---- The tail behind the inner token ----------------------------------

  /** The text starts with the tail, as a word. */
  predicate HasTail(b: string) { At(TAIL, b, 0) && (|b| > |TAIL| ==> !IsWord(b[|TAIL|])) }

  lemma TailNear(k: nat)
    requires 0 < k < |TAIL|
    ensures IsWord(TAIL[k - 1]) || (IsWord(TAIL[k]) && TAIL[k] != 'r') || k == 5
    ensures IsWord(TAIL[k - 1]) || IsWord(TAIL[k])
  {
    RamChars();
    TailChars();
    hide RAM0, TAIL;
    assert TAIL[k - 1] == RAM0.text[5 + (k - 1)];
  }

  /** A RAM disk token does not start inside the tail or right behind it. */
  lemma TailBefore(x: Around)
    requires IsAround(x) && HasTail(x.t)
    ensures x.n > |TAIL|
  {
    RamChars();
    TailChars();
    MatchMeans(RAM0, x.t, x.n);
    hide RAM0, TAIL, Sub, FirstMatch, MatchAt;
    assert x.t[x.n] == RAM0.text[0] && x.t[x.n + 1] == RAM0.text[1];
    assert forall k :: 0 <= k < |TAIL| ==> x.t[k] == TAIL[k];
    assert TAIL[0] == '/' && TAIL[6] == 'a' && TAIL[8] == '0';
    if 0 < x.n < |TAIL| { TailNear(x.n); }
  }

  /** Nor is it taken out there to bring the tail about. */
  lemma TailBehind(x: Around)
    requires IsAround(x) && HasTail(Sub(RAM0, x.t)) && (x.t != "" ==> !IsWord(x.t[0]))
    ensures x.n > |TAIL|
  {
    RamChars();
    TailChars();
    MatchMeans(RAM0, x.t, x.n);
    hide RAM0, TAIL, Sub, FirstMatch, MatchAt;
    var u := Sub(RAM0, x.t);
    assert x.t[x.n] == RAM0.text[0];
    assert x.n > 0 ==> u[x.n - 1] == x.t[x.n - 1];
    assert forall k :: 0 <= k < |TAIL| ==> u[k] == TAIL[k];
    assert TAIL[8] == '0';
    assert x.n < |u| ==> u[x.n] == x.s[0];
    if 0 < x.n < |TAIL| { TailNear(x.n); }
  }

  lemma SharedTail(t: string, u: string, n: nat)
    requires |TAIL| < n <= |t| && n <= |u| && t[..n] == u[..n]
    ensures HasTail(t) <==> HasTail(u)
  {
    hide TAIL;
    assert forall k :: 0 <= k < n ==> t[..n][k] == u[..n][k];
    assert forall k :: 0 <= k < n ==> t[k] == u[k];
  }

  /** Removing RAM disk tokens from a text neither brings the tail to its start nor takes it
      away. */
  lemma TailStays(b: string)
    requires b != "" ==> !IsWord(b[0])
    ensures HasTail(Sub(RAM0, b)) <==> HasTail(b)
  {
    hide RAM0, TAIL, Sub, FirstMatch, MatchAt, HasTail, Plain;
    if FirstMatch(RAM0, b, 0) > |b| {
      NoFirst(RAM0, b);
      SubPlain(RAM0, b);
    } else {
      var x := AroundFirst(b);
      var u := Sub(RAM0, b);
      assert b[..x.n] == u[..x.n];
      if HasTail(b) {
        TailBefore(x);
        SharedTail(b, u, x.n);
      }
      if HasTail(u) {
        TailBehind(x);
        SharedTail(b, u, x.n);
      }
    }
  }

  // ---- The inner token --------------------------------------------------

  /** A nested token holds a RAM disk token between `root=` and the tail. */
  lemma NestingMeans(t: string, i: nat)
    ensures MatchAt(NESTING, t, i) <==>
            && MatchAt(RAM0, t, i + 5) && i <= |t| && LeftEdge(t, i)
            && (forall k :: 0 <= k < 5 ==> t[i + k] == RAM0.text[k])
            && HasTail(t[i + 19..])
  {
    MatchMeans(NESTING, t, i);
    MatchMeans(RAM0, t, i + 5);
    hide MatchAt;
    RamChars();
    TailChars();
    NestedChars();
    hide RAM0, TAIL, NESTED;
    if MatchAt(NESTING, t, i) { NestingParts(t, i); }
    if MatchAt(RAM0, t, i + 5) && i <= |t| && LeftEdge(t, i) &&
       (forall k :: 0 <= k < 5 ==> t[i + k] == RAM0.text[k]) && HasTail(t[i + 19..]) {
      forall k | 0 <= k < 28 ensures NESTED[k] == t[i + k] {
        assert k < 5 ==> NESTED[k] == RAM0.text[k];
        assert 5 <= k < 19 ==> NESTED[5 + (k - 5)] == RAM0.text[k - 5] == t[(i + 5) + (k - 5)];
        assert 19 <= k ==> NESTED[19 + (k - 19)] == TAIL[k - 19] == t[i + 19..][k - 19];
      }
    }
  }

  lemma NestingParts(t: string, i: nat)
    requires MatchAt(NESTING, t, i)
    ensures MatchAt(RAM0, t, i + 5) && LeftEdge(t, i) && HasTail(t[i + 19..])
    ensures forall k :: 0 <= k < 5 ==> t[i + k] == RAM0.text[k]
  {
    MatchMeans(NESTING, t, i);
    MatchMeans(RAM0, t, i + 5);
    hide MatchAt;
    RamChars();
    TailChars();
    NestedChars();
    hide RAM0, TAIL, NESTED;
    assert forall k :: 0 <= k < 5 ==> t[i + k] == NESTED[k];
    assert forall k :: 0 <= k < 14 ==> RAM0.text[k] == t[(i + 5) + k];
    assert forall k :: 0 <= k < 9 ==> TAIL[k] == t[i + 19..][k];
    assert t[i + 4] == NESTED[4] && t[i + 19] == NESTED[19 + 0];
  }

  /** A RAM disk token that comes about over the place of the first removal was nested. */
  lemma SpliceMeans(x: Around, i: nat)
    requires IsAround(x) && i + 5 == x.n
    ensures MatchAt(RAM0, Sub(RAM0, x.t), i) <==> MatchAt(NESTING, x.t, i)
  {
    RamChars();
    hide RAM0, NESTING, Sub, MatchAt, FirstMatch, TAIL, HasTail;
    NestingMeans(x.t, i);
    TailStays(x.b);
    assert x.t[i + 19..] == x.b;
    if MatchAt(RAM0, Sub(RAM0, x.t), i) { SpliceParts(x, i); }
    if MatchAt(NESTING, x.t, i) { SpliceBack(x, i); }
  }

  lemma SpliceParts(x: Around, i: nat)
    requires IsAround(x) && i + 5 == x.n && MatchAt(RAM0, Sub(RAM0, x.t), i)
    ensures LeftEdge(x.t, i) && HasTail(x.s)
    ensures forall k :: 0 <= k < 5 ==> x.t[i + k] == RAM0.text[k]
  {
    var u := Sub(RAM0, x.t);
    RamChars();
    TailChars();
    hide RAM0, Sub, FirstMatch, TAIL;
    MatchMeans(RAM0, u, i);
    hide MatchAt;
    assert forall k :: 0 <= k < x.n ==> u[k] == x.t[k];
    assert forall k :: 0 <= k < |x.s| ==> x.s[k] == u[x.n + k];
    forall k | 0 <= k < 9 ensures TAIL[k] == x.s[k] { assert RAM0.text[5 + k] == u[i + (5 + k)]; }
  }

  lemma SpliceBack(x: Around, i: nat)
    requires IsAround(x) && i + 5 == x.n && LeftEdge(x.t, i) && HasTail(x.s)
    requires forall k :: 0 <= k < 5 ==> x.t[i + k] == RAM0.text[k]
    ensures MatchAt(RAM0, Sub(RAM0, x.t), i)
  {
    var u := Sub(RAM0, x.t);
    RamChars();
    TailChars();
    hide RAM0, Sub, FirstMatch, TAIL;
    MatchMeans(RAM0, u, i);
    hide MatchAt;
    assert forall k :: 0 <= k < x.n ==> u[k] == x.t[k];
    assert forall k :: 0 <= k < |x.s| ==> x.s[k] == u[x.n + k];
    forall k | 0 <= k < 14 ensures RAM0.text[k] == u[i + k] {
      assert k >= 5 ==> TAIL[k - 5] == x.s[k - 5] == u[x.n + (k - 5)];
      assert k >= 5 ==> TAIL[k - 5] == RAM0.text[5 + (k - 5)];
    }
  }

  /** Only there can a match come about left of what was taken out last. */
  lemma AcrossIsFive(x: Around, i: nat)
    requires IsAround(x) && i < x.n && MatchAt(RAM0, Sub(RAM0, x.t), i)
    ensures i + 5 == x.n && x.s != ""
  {
    var u := Sub(RAM0, x.t);
    RamChars();
    RamEnds();
    FirstIsFirst(RAM0, x.t);
    hide RAM0, Sub, FirstMatch, MatchAt, WordEnds;
    if i + |RAM0.text| <= x.n {
      assert x.t[..x.n] == u[..x.n];
      SharedHead(RAM0, x.t, u, x.n, i);
    } else {
      OverJunction(RAM0, u, x.n, i);
      assert u[x.n] == x.s[0];
      RamNear(x.n - i);
    }
  }

  lemma ClearEarly(x: Around, qs: seq<Pattern>, i: nat)
    requires IsAround(x) && AreCutters(qs) && x.s != "" && i <= x.n
    ensures Clear(qs, Sub(RAM0, x.t), i) <==> Clear(qs, x.t, i)
  {
    hide IsCutter, MatchAt, Sub, RAM0, IsAround, FirstMatch;
    forall c, j | 0 <= c < |qs| && 0 <= j < i
      ensures MatchAt(qs[c], x.t, j) <==> MatchAt(qs[c], Sub(RAM0, x.t), j)
    {
      assert IsCutter(qs[c]);
      HeadsAlike(x, qs[c], j);
    }
  }

  /** A nested token is either around the first RAM disk token or behind it. */
  lemma NestedPlace(x: Around, i: nat)
    requires IsAround(x) && MatchAt(NESTING, x.t, i)
    ensures (i + 5 == x.n && x.s != "") || i > x.n + |RAM0.text|
  {
    RamChars();
    NestedChars();
    FirstIsFirst(RAM0, x.t);
    hide RAM0, Sub, FirstMatch, MatchAt, TAIL, NESTED;
    NestingMeans(x.t, i);
    MatchMeans(RAM0, x.t, x.n);
    MatchMeans(RAM0, x.t, i + 5);
    NestedOutside(x.t, x.n, i);
    hide NESTING;
    if i + 5 == x.n { TailNotEmpty(x.t[i + 19..]); }
  }

  lemma TailNotEmpty(b: string)
    requires HasTail(b)
    ensures b != ""
  {
    assert |TAIL| == 9;
  }

  /** A RAM disk token and a nested one do not overlap otherwise. */
  lemma NestedOutside(t: string, n: nat, i: nat)
    requires MatchAt(RAM0, t, n) && MatchAt(NESTING, t, i) && n <= i + 5
    ensures n == i + 5 || i > n + |RAM0.text|
  {
    RamChars();
    hide RAM0, MatchAt, NESTING;
    NestingMeans(t, i);
    MatchMeans(RAM0, t, n);
    MatchMeans(RAM0, t, i + 5);
    assert forall k :: 0 <= k < 14 ==> t[n + k] == RAM0.text[k];
    assert t[i + 0] == 'r' && t[i + 1] == 'o' && t[i + 2] == 'o' && t[i + 3] == 't';
    assert t[(i + 5) + 0] == 'r';
    assert t[n + 0] == 'r';
  }

  // ---- Exactly the nested tokens ----------------------------------------

  /** Behind the first RAM disk token: what shows in the rest shows in the whole. */
  lemma ShowsLater(x: Around, k: nat)
    requires IsAround(x) && AreCutters(CUTTERS) && x.s != "" && k <= |x.s|
    requires MatchAt(RAM0, x.s, k) && Clear(CUTTERS, x.s, k) && Clear(CUTTERS, x.t, x.n)
    ensures Exposed(Sub(RAM0, x.t))
  {
    hide IsAround, MatchAt, Sub, RAM0, CUTTERS, Clear, AreCutters, FirstMatch;
    RamWord();
    LaterAlike(x, RAM0, k);
    ClearLater(x, CUTTERS, k);
    MatchStarts(RAM0, Sub(RAM0, x.t), x.n + k);
  }

  lemma NestedLater(x: Around, k: nat)
    requires IsAround(x) && AreCutters(CUTTERS) && x.s != ""
    requires MatchAt(NESTING, x.b, k) && Clear(CUTTERS, x.b, k) && Clear(CUTTERS, x.t, x.n)
    ensures Nested(x.t)
  {
    RamChars();
    hide IsAround, MatchAt, Sub, RAM0, CUTTERS, Clear, AreCutters, FirstMatch, NESTING;
    RamWord();
    LaterAlike(x, NESTING, k);
    ClearLater(x, CUTTERS, k);
    MatchStarts(NESTING, x.t, x.n + |RAM0.text| + k);
  }

  lemma ShownIsNested(x: Around)
    requires IsAround(x) && AreCutters(CUTTERS) && Exposed(Sub(RAM0, x.t))
    requires Exposed(x.s) ==> Nested(x.b)
    ensures Nested(x.t)
  {
    var u := Sub(RAM0, x.t);
    hide IsAround, MatchAt, Sub, RAM0, CUTTERS, Clear, AreCutters, FirstMatch, NESTING;
    RamWord();
    var i: nat :| i <= |u| && MatchAt(RAM0, u, i) && Clear(CUTTERS, u, i);
    if i < x.n {
      AcrossIsFive(x, i);
      SpliceMeans(x, i);
      ClearEarly(x, CUTTERS, i);
      MatchStarts(NESTING, x.t, i);
    } else {
      var k := i - x.n;
      LaterAlike(x, RAM0, k);
      RamNotEmpty(x.s, k);
      ClearLater(x, CUTTERS, k);
      MatchStarts(RAM0, x.s, k);
      var j: nat :| j <= |x.b| && MatchAt(NESTING, x.b, j) && Clear(CUTTERS, x.b, j);
      NestedLater(x, j);
    }
  }

  lemma RamNotEmpty(t: string, k: nat)
    requires MatchAt(RAM0, t, k)
    ensures t != ""
  {
    RamChars();
    MatchMeans(RAM0, t, k);
  }

  lemma NestedIsShown(x: Around)
    requires IsAround(x) && AreCutters(CUTTERS) && Nested(x.t)
    requires Nested(x.b) ==> Exposed(x.s)
    ensures Exposed(Sub(RAM0, x.t))
  {
    RamChars();
    hide IsAround, MatchAt, Sub, RAM0, CUTTERS, Clear, AreCutters, FirstMatch, NESTING;
    RamWord();
    var i: nat :| i <= |x.t| && MatchAt(NESTING, x.t, i) && Clear(CUTTERS, x.t, i);
    NestedPlace(x, i);
    if i + 5 == x.n && x.s != "" {
      SpliceMeans(x, i);
      ClearEarly(x, CUTTERS, i);
      MatchStarts(RAM0, Sub(RAM0, x.t), i);
    } else {
      var k := i - x.n - |RAM0.text|;
      LaterAlike(x, NESTING, k);
      NestingNotEmpty(x, k);
      ClearLater(x, CUTTERS, k);
      MatchStarts(NESTING, x.b, k);
      var j: nat :| j <= |x.s| && MatchAt(RAM0, x.s, j) && Clear(CUTTERS, x.s, j);
      ShowsLater(x, j);
    }
  }

  lemma NestingNotEmpty(x: Around, k: nat)
    requires IsAround(x) && MatchAt(NESTING, x.b, k)
    ensures x.s != ""
  {
    NestedChars();
    MatchMeans(NESTING, x.b, k);
    hide MatchAt, RAM0, NESTED, Sub, FirstMatch;
  }

  lemma NoneShown(t: string)
    requires FirstMatch(RAM0, t, 0) > |t|
    ensures !Exposed(Sub(RAM0, t)) && !Nested(t)
  {
    hide MatchAt, Sub, RAM0, CUTTERS, Clear, FirstMatch, NESTING;
    NoFirst(RAM0, t);
    SubPlain(RAM0, t);
    forall i: nat ensures !MatchAt(NESTING, t, i) {
      if MatchAt(NESTING, t, i) { NestingMeans(t, i); }
    }
  }

  /** Removing the RAM disk tokens leaves one that is not cut off exactly when there was one
      inside another. */
  lemma {:induction false} ShownExactly(t: string)
    ensures Exposed(Sub(RAM0, t)) <==> Nested(t)
    decreases |t|
  {
    CuttersCut();
    RamChars();
    hide MatchAt, Sub, RAM0, CUTTERS, AreCutters, FirstMatch, Exposed, Nested;
    if FirstMatch(RAM0, t, 0) > |t| {
      NoneShown(t);
    } else {
      var x := AroundFirst(t);
      ShownExactly(x.b);
      if Exposed(Sub(RAM0, t)) { ShownIsNested(x); }
      if Nested(t) { NestedIsShown(x); }
    }
  }

  /** Stripping the HTTP arguments of a token again changes nothing, exactly when the token
      does not hold a RAM disk token inside another. */
  lemma HttpStripTwice(t: string)
    ensures
      var f := StripToken(HTTP_PATTERNS, t);
      StripToken(HTTP_PATTERNS, f) == f <==> !Nested(t)
  {
    hide StripToken, Sub, Plain, RAM0, HTTP_PATTERNS, Exposed, Nested;
    SettledIsPlain(t);
    PlainIsHidden(t);
    ShownExactly(t);
  }

  /** The shortest such token. */
  lemma NestedIsNested()
    ensures Nested(NESTED)
  {
    NestedChars();
    hide NESTED, CUTTERS;
    MatchMeans(NESTING, NESTED, 0);
    hide MatchAt;
    assert Clear(CUTTERS, NESTED, 0);
  }
}
