/** What HTTP stripping leaves of a `cloud-config-url=` token: the pattern for `url=` comes
    first and matches in the middle of it. */
module StubTokens {
  import opened Text
  import opened Url
  import opened Kernelopt
  import opened StripTokens
  import opened UbuntuModes
  import opened SettlePatterns
  import opened NestedTokens
  import opened UbuntuTwice

  const STUB := "cloud-config-"

  // ---- Matches behind a head --------------------------------------------

  lemma FirstIs(p: Pattern, t: string, n: nat)
    requires n <= |t| + 1 && (n <= |t| ==> MatchAt(p, t, n))
    requires forall j :: 0 <= j < n ==> !MatchAt(p, t, j)
    ensures FirstMatch(p, t, 0) == n
  {
    hide MatchAt;
  }

  /** Behind a head that ends outside words, matches are those of the rest. */
  lemma BehindAlike(p: Pattern, h: string, x: string, k: nat)
    requires h != "" && !IsWord(h[|h| - 1])
    ensures MatchAt(p, h + x, |h| + k) <==> MatchAt(p, x, k)
  {
    var t := h + x;
    MatchMeans(p, t, |h| + k);
    MatchMeans(p, x, k);
    hide MatchAt;
    TailOfSum(h, x);
    SuffixAt(HeadOf(p), t, |h|, k);
    assert forall j :: 0 <= j < |x| ==> t[|h| + j] == x[j];
    assert t[|h| - 1] == h[|h| - 1];
  }

  lemma FirstBehind(p: Pattern, h: string, x: string)
    requires Misses(p, h) && h != "" && !IsWord(h[|h| - 1])
    ensures FirstMatch(p, h + x, 0) == |h| + FirstMatch(p, x, 0)
  {
    var n := FirstMatch(p, x, 0);
    hide MatchAt, MissesAt, FirstMatch, StartsWith, IsWord;
    FirstFits(p, x);
    forall j | 0 <= j < |h| + n ensures !MatchAt(p, h + x, j) { NoneBefore(p, h, x, j); }
    BehindAlike(p, h, x, n);
    FirstIs(p, h + x, |h| + n);
  }

  lemma NoneBefore(p: Pattern, h: string, x: string, j: nat)
    requires Misses(p, h) && h != "" && !IsWord(h[|h| - 1]) && j < |h| + FirstMatch(p, x, 0)
    ensures !MatchAt(p, h + x, j)
  {
    hide MatchAt, MissesAt, FirstMatch, StartsWith, IsWord;
    FirstIsFirst(p, x);
    if j < |h| {
      HeadSum(h, x);
      assert MissesAt(p, h, j);
      NoMatchInside(p, h, h + x, j);
    } else {
      BehindAlike(p, h, x, j - |h|);
    }
  }

  lemma FirstFits(p: Pattern, t: string)
    ensures FirstMatch(p, t, 0) <= |t| + 1
    ensures FirstMatch(p, t, 0) <= |t| ==> MatchAt(p, t, FirstMatch(p, t, 0))
  {
    hide MatchAt;
  }

  lemma HeadSum(h: string, x: string)
    ensures StartsWith(h + x, h)
  {
  }

  /** Such a head is not in the way of a removal. */
  lemma SubBehind(p: Pattern, h: string, x: string)
    requires Misses(p, h) && h != "" && !IsWord(h[|h| - 1]) && HeadOf(p) != ""
    ensures Sub(p, h + x) == h + Sub(p, x)
  {
    hide MatchAt, FirstMatch, Misses, Sub, At;
    FirstBehind(p, h, x);
    FirstFits(p, x);
    var n := FirstMatch(p, x, 0);
    if n > |x| {
      NothingCut(p, x);
      NothingCut(p, h + x);
    } else if p.ToEnd? {
      SubCut(p, x);
      SubCut(p, h + x);
      assert (h + x)[..|h| + n] == h + x[..n];
    } else {
      MatchFits(p, x, n);
      SubOnce(p, x, n);
      SubOnce(p, h + x, |h| + n);
      CutBehind(h, x, n, n + |p.text|);
      Assoc(h, x[..n], Sub(p, x[n + |p.text|..]));
    }
  }

  lemma CutBehind(h: string, x: string, n: nat, m: nat)
    requires n <= m <= |x|
    ensures (h + x)[..|h| + n] == h + x[..n] && (h + x)[|h| + m..] == x[m..]
  {
  }

  // ---- The stub ---------------------------------------------------------

  /** The characters of the head that tell the patterns apart. */
  lemma HeadChars()
    ensures |CLOUD_CONFIG.head| == 17 && |STUB| == 13 && CLOUD_CONFIG.head[..13] == STUB
    ensures CLOUD_CONFIG.head[13..] == URL.head && CLOUD_CONFIG.head[16] == '=' && CLOUD_CONFIG.head[12] == '-'
    ensures forall j :: 0 <= j < 17 && CLOUD_CONFIG.head[j] == 'r' ==> j == 14
    ensures forall j :: 0 <= j < 17 && CLOUD_CONFIG.head[j] == 'u' ==> j == 3 || j == 13
    ensures forall j :: 0 <= j < 17 && CLOUD_CONFIG.head[j] == 'd' ==> j == 4
    ensures IsWord(CLOUD_CONFIG.head[13]) && IsWord(CLOUD_CONFIG.head[2]) && IsWord(CLOUD_CONFIG.head[3])
  {
    assert CLOUD_CONFIG.head == STUB + URL.head;
    assert |STUB| == 13;
  }

  lemma HeadMisses()
    ensures Misses(RAM0, CLOUD_CONFIG.head) && Misses(RAMDISK, CLOUD_CONFIG.head)
  {
    HeadChars();
    KeyChars();
    Lengths();
    hide CLOUD_CONFIG, RAM0, RAMDISK, STUB, URL;
  }

  /** In the middle of the head: the first match of `url=`, if something follows. */
  lemma UrlInside(y: string)
    ensures Sub(URL, CLOUD_CONFIG.head + y) == if y == "" then CLOUD_CONFIG.head else STUB
  {
    HeadChars();
    KeyChars();
    Lengths();
    var h := CLOUD_CONFIG.head;
    var t := h + y;
    hide CLOUD_CONFIG, URL, STUB, Sub, FirstMatch, MatchAt;
    forall j | 0 <= j < 13 ensures !MatchAt(URL, t, j) {
      if MatchAt(URL, t, j) { UrlChars(t, j); }
    }
    UrlAt(h, y);
    if y == "" {
      assert t == h;
      forall j | 13 < j <= |t| ensures !MatchAt(URL, t, j) { ShortRest(URL, t, j); }
      FirstIs(URL, t, |t| + 1);
      NothingCut(URL, t);
    } else {
      FirstIs(URL, t, 13);
      SubCut(URL, t);
      assert t[..13] == h[..13];
    }
  }

  lemma UrlChars(t: string, j: nat)
    requires MatchAt(URL, t, j)
    ensures j < |t| && t[j] == 'u' && (j == 0 || !IsWord(t[j - 1]))
  {
    Lengths();
    KeyChars();
    hide URL;
    MatchMeans(URL, t, j);
  }

  lemma ShortRest(p: Pattern, t: string, j: nat)
    requires j + |HeadOf(p)| > |t|
    ensures !MatchAt(p, t, j)
  {
    hide MatchAt;
    if MatchAt(p, t, j) { MatchFits(p, t, j); }
  }

  lemma UrlAt(h: string, y: string)
    requires |h| == 17 && h[13..] == URL.head && h[12] == '-'
    ensures MatchAt(URL, h + y, 13) <==> y != ""
  {
    var t := h + y;
    Lengths();
    MatchMeans(URL, t, 13);
    UrlSome();
    hide MatchAt, URL;
    assert forall k :: 0 <= k < 4 ==> h[13..][k] == t[13 + k];
    assert forall k :: 0 <= k < 4 ==> URL.head[k] == t[13 + k];
    assert t[12] == '-';
  }

  lemma UrlSome()
    ensures URL.ToEnd? && URL.some && !IsWord('-')
  {
  }

  lemma MatchFits(p: Pattern, t: string, i: nat)
    requires MatchAt(p, t, i)
    ensures i + |HeadOf(p)| <= |t|
  {
  }

  /** The patterns behind `url=` find nothing more. */
  lemma StubPlain()
    ensures Plain(NOCLOUD_NET, STUB) && Plain(NOCLOUD, STUB) && Plain(CLOUD_CONFIG, STUB)
    ensures Plain(NOCLOUD_NET, CLOUD_CONFIG.head) && Plain(NOCLOUD, CLOUD_CONFIG.head)
    ensures Plain(CLOUD_CONFIG, CLOUD_CONFIG.head)
  {
    HeadChars();
    Lengths();
    WordChars();
    NoCloudStart();
    ShortPlain(CLOUD_CONFIG, STUB);
    NeedsMore(CLOUD_CONFIG);
    hide CLOUD_CONFIG, STUB, NOCLOUD, NOCLOUD_NET, MatchAt, Plain;
    DayPlain(NOCLOUD_NET, CLOUD_CONFIG.head);
    DayPlain(NOCLOUD, CLOUD_CONFIG.head);
    assert forall j :: 0 <= j < 13 ==> STUB[j] == CLOUD_CONFIG.head[..13][j] == CLOUD_CONFIG.head[j];
    DayPlain(NOCLOUD_NET, STUB);
    DayPlain(NOCLOUD, STUB);
  }

  lemma NoCloudStart()
    ensures NOCLOUD.head[0] == 'd' && NOCLOUD_NET.head[0] == 'd'
  {
  }

  /** A head whose only `d` stands inside a word. */
  lemma DayPlain(p: Pattern, t: string)
    requires HeadOf(p) != "" && HeadOf(p)[0] == 'd' && |t| > 4 && IsWord(t[3])
    requires forall j :: 0 <= j < |t| && t[j] == 'd' ==> j == 4
    ensures Plain(p, t)
  {
    hide MatchAt;
    forall i: nat ensures !MatchAt(p, t, i) {
      if MatchAt(p, t, i) {
        MatchMeans(p, t, i);
        MatchHead(p, t, i);
      }
    }
  }

  /** A pattern that needs something behind its head does not match the head alone. */
  lemma NeedsMore(p: Pattern)
    requires p.ToEnd? && p.some && p.head != ""
    ensures Plain(p, p.head)
  {
    hide MatchAt;
    forall i: nat ensures !MatchAt(p, p.head, i) {
      if MatchAt(p, p.head, i) { MatchMeans(p, p.head, i); }
    }
  }

  lemma SixStrips(a: Pattern, b: Pattern, c: Pattern, rest: seq<Pattern>, t: string)
    ensures StripToken([a, b, c] + rest, t) == StripToken(rest, Sub(c, Sub(b, Sub(a, t))))
  {
    hide Sub, StripToken;
    var u := Sub(a, t);
    assert [a, b, c] + rest == [a] + ([b] + ([c] + rest));
    StripCons(a, [b] + ([c] + rest), t);
    StripCons(b, [c] + rest, u);
    StripCons(c, rest, Sub(b, u));
  }

  lemma StripCons(p: Pattern, rest: seq<Pattern>, t: string)
    ensures StripToken([p] + rest, t) == StripToken(rest, Sub(p, t))
  {
    hide Sub, StripToken;
    StripNext([p] + rest, t);
    assert ([p] + rest)[1..] == rest;
  }

  const LATER: seq<Pattern> := [NOCLOUD_NET, NOCLOUD, CLOUD_CONFIG]

  /** HTTP stripping never removes a `cloud-config-url=` token: it leaves `cloud-config-` of it,
      or the whole key when nothing of the value is left. */
  lemma StubLeft(x: string)
    ensures StripToken(HTTP_PATTERNS, CLOUD_CONFIG.head + x) ==
            if Sub(RAMDISK, Sub(RAM0, x)) == "" then CLOUD_CONFIG.head else STUB
  {
    HeadMisses();
    HeadChars();
    Lengths();
    StubPlain();
    hide Sub, StripToken, CLOUD_CONFIG, RAM0, RAMDISK, URL, NOCLOUD, NOCLOUD_NET, STUB, Misses, Plain;
    var h := CLOUD_CONFIG.head;
    var y := Sub(RAMDISK, Sub(RAM0, x));
    assert HTTP_PATTERNS == [RAM0, RAMDISK, URL] + LATER;
    SixStrips(RAM0, RAMDISK, URL, LATER, h + x);
    SubBehind(RAM0, h, x);
    SubBehind(RAMDISK, h, Sub(RAM0, x));
    UrlInside(y);
    StripPlain(LATER, if y == "" then h else STUB);
  }

  // ---- The builders -----------------------------------------------------

  /** No pattern of either mode touches the stub, so every later build keeps it. */
  lemma StubStays()
    ensures StripToken(HTTP_PATTERNS, STUB) == STUB && '=' !in STUB
    ensures StripToken(NFS_PATTERNS, STUB) == STUB
  {
    NoEqualsStub();
    hide STUB, HTTP_PATTERNS, NFS_PATTERNS, StripToken, Plain;
    NoEqualsPlain(STUB);
    StripPlain(HTTP_PATTERNS, STUB);
    StripPlain(NFS_PATTERNS, STUB);
  }

  lemma NoEqualsStub()
    ensures '=' !in STUB && STUB != ""
  {
  }

  /** A build for NFS leaves the stub among the arguments, in the place of the token. */
  lemma BuiltStub(args: string, site: Site, front: seq<string>, x: string, rest: seq<string>)
    returns (before: seq<string>, after: seq<string>)
    requires Tokens(args) == front + [CLOUD_CONFIG.head + x] + rest && Sub(RAMDISK, Sub(RAM0, x)) != ""
    ensures Tokens(BuildNfs(args, site)) == before + [STUB] + after
    ensures before == Left(HTTP_PATTERNS, front)
  {
    StubLeft(x);
    NoEqualsStub();
    var t := CLOUD_CONFIG.head + x;
    hide Tokens, Left, BuildNfs, Sub, StripToken, HTTP_PATTERNS, CLOUD_CONFIG, STUB;
    var back := UbuntuKeeps(args, true, site);
    KeptConcat(HTTP_PATTERNS, front + [t], rest);
    KeptConcat(HTTP_PATTERNS, front, [t]);
    OneLeft(HTTP_PATTERNS, t);
    before, after := Left(HTTP_PATTERNS, front), Left(HTTP_PATTERNS, rest) + back;
    Assoc(before + [STUB], Left(HTTP_PATTERNS, rest), back);
  }

  lemma OneLeft(ps: seq<Pattern>, t: string)
    requires StripToken(ps, t) != ""
    ensures Left(ps, [t]) == [StripToken(ps, t)]
  {
    hide StripToken;
    assert [t][1..] == [] && [t][0] == t;
    assert Left(ps, []) == [];
  }

  /** The usual value, `/dev/null`, leaves the stub. */
  lemma DevNullLeft()
    ensures StripToken(HTTP_PATTERNS, CLOUD_CONFIG.head + "/dev/null") == STUB
  {
    var x := "/dev/null";
    assert '=' !in x && x != "";
    hide StripToken, Sub, Plain, RAM0, RAMDISK, CLOUD_CONFIG, STUB;
    NoEqualsPlain(x);
    PlainOfTwo(x);
    SubPlain(RAM0, x);
    SubPlain(RAMDISK, x);
    StubLeft(x);
  }

  lemma PlainOfTwo(x: string)
    requires PlainFor(HTTP_PATTERNS, x)
    ensures Plain(RAM0, x) && Plain(RAMDISK, x)
  {
    hide Plain, RAM0, RAMDISK, URL, NOCLOUD, NOCLOUD_NET, CLOUD_CONFIG;
    assert HTTP_PATTERNS[0] == RAM0 && HTTP_PATTERNS[1] == RAMDISK;
  }
}
