/** Building Ubuntu arguments a second time, and what of the administrator's own arguments
    stays. */
module UbuntuTwice {
  import opened Text
  import opened Kernelopt
  import opened KernelArgs
  import opened StripTokens
  import opened UbuntuModes
  import opened SettlePatterns
  import opened NestedTokens

  // ---- Building twice ---------------------------------------------------

  /** The server's own values mean nothing to the other mode. */
  predicate Apart(site: Site) {
    && StripToken(HTTP_PATTERNS, NFSROOT.head + site.nfsRoot) == NFSROOT.head + site.nfsRoot
    && StripToken(HTTP_PATTERNS, NFSOPTS.head + site.nfsOpts) == NFSOPTS.head + site.nfsOpts
    && StripToken(NFS_PATTERNS, RAMDISK.head + site.ramdisk) == RAMDISK.head + site.ramdisk
    && (site.iso.Some? ==> StripToken(NFS_PATTERNS, URL.head + site.iso.value) == URL.head + site.iso.value)
  }

  lemma WordChars()
    ensures 'u' !in CASPER.text && 'u' !in NETBOOT.text
    ensures 'b' !in RAM0.text && 'n' !in RAM0.text
    ensures NFSROOT.head[0] == 'n' && NFSOPTS.head[0] == 'n' && NOCLOUD.head[0] == 'd'
  {
  }

  lemma WordsStay()
    ensures StripToken(HTTP_PATTERNS, CASPER.text) == CASPER.text
    ensures StripToken(HTTP_PATTERNS, NETBOOT.text) == NETBOOT.text
    ensures StripToken(NFS_PATTERNS, RAM0.text) == RAM0.text
  {
    Lengths();
    FirstChars();
    WordChars();
    hide MatchAt, Plain, StripToken, CASPER, NETBOOT, NFSROOT, NFSOPTS, RAM0, RAMDISK, URL, NOCLOUD_NET, NOCLOUD,
         CLOUD_CONFIG;
    HttpPlain(CASPER.text);
    HttpPlain(NETBOOT.text);
    FirstPlain(CASPER, RAM0.text);
    FirstPlain(NETBOOT, RAM0.text);
    FirstPlain(NFSROOT, RAM0.text);
    FirstPlain(NFSOPTS, RAM0.text);
    StripPlain(HTTP_PATTERNS, CASPER.text);
    StripPlain(HTTP_PATTERNS, NETBOOT.text);
    StripPlain(NFS_PATTERNS, RAM0.text);
  }

  /** Eleven characters without a `u` and not starting with `d` hold no HTTP-mode token. */
  lemma HttpPlain(t: string)
    requires |t| == 11 && 'u' !in t && t[0] != 'd'
    ensures PlainFor(HTTP_PATTERNS, t)
  {
    Lengths();
    FirstChars();
    WordChars();
    hide MatchAt, Plain, CASPER, NETBOOT, NFSROOT, NFSOPTS, RAM0, RAMDISK, URL, NOCLOUD_NET, NOCLOUD, CLOUD_CONFIG;
    ShortPlain(RAM0, t);
    ShortPlain(RAMDISK, t);
    FirstPlain(URL, t);
    ShortPlain(NOCLOUD_NET, t);
    SamePlain(NOCLOUD, t);
    ShortPlain(CLOUD_CONFIG, t);
  }

  lemma HeadMentioned(head: string, rest: string)
    requires head != ""
    ensures TokenHolds(Mentions(head), head + rest) && TokenHolds(Starts(head), head + rest)
  {
    assert (head + rest)[0..][..|head|] == head && (head + rest)[0..] == head + rest;
  }

  lemma UntouchedOne(ps: seq<Pattern>, t: string)
    requires t != "" && StripToken(ps, t) == t
    ensures Untouched(ps, [t])
  {
    hide StripToken;
  }

  lemma ThreeStay(ps: seq<Pattern>, g: Guard, a: string, b: string, c: string)
    requires a != "" && b != "" && c != "" && TokenHolds(g, c)
    requires StripToken(ps, a) == a && StripToken(ps, b) == b && StripToken(ps, c) == c
    ensures Untouched(ps, [a, b, c]) && AnyHolds(g, [a, b, c])
  {
    hide StripToken, TokenHolds;
    assert [a, b, c][2] == c;
  }

  lemma FixedStays(site: Site)
    requires Apart(site) && Recognised(site)
    ensures Untouched(HTTP_PATTERNS, Fixed(site)) && AnyHolds(Mentions(NFSROOT.head), Fixed(site))
  {
    Lengths();
    WordsStay();
    hide StripToken, TokenHolds, IsToken, CASPER, NETBOOT, NFSROOT, HTTP_PATTERNS, Untouched, AnyHolds;
    HeadMentioned(NFSROOT.head, site.nfsRoot);
    ThreeStay(HTTP_PATTERNS, Mentions(NFSROOT.head), CASPER.text, NETBOOT.text, NFSROOT.head + site.nfsRoot);
  }

  lemma OptsStays(a: string, site: Site)
    requires Apart(site)
    ensures Untouched(HTTP_PATTERNS, OptsBits(a, site))
  {
    Lengths();
    hide StripToken, Holds, NFSOPTS, HTTP_PATTERNS;
    if OptsBits(a, site) != [] { UntouchedOne(HTTP_PATTERNS, NFSOPTS.head + site.nfsOpts); }
  }

  lemma NfsOwnStays(a: string, site: Site)
    requires Apart(site) && Recognised(site)
    ensures Untouched(HTTP_PATTERNS, NfsOwn(a, site)) && AreTokens(NfsOwn(a, site))
    ensures AnyHolds(Mentions(NFSROOT.head), NfsOwn(a, site))
  {
    Lengths();
    hide Apart, Recognised, Fixed, OptsBits, AnyHolds, Untouched, AreTokens, HTTP_PATTERNS, NFSROOT;
    NfsBitsGo(a, site);
    FixedStays(site);
    OptsStays(a, site);
    UntouchedConcat(HTTP_PATTERNS, Fixed(site), OptsBits(a, site));
    AnyConcat(Mentions(NFSROOT.head), Fixed(site), OptsBits(a, site));
  }

  /** No token holds a RAM disk token inside another. */
  predicate NoneNested(ts: seq<string>) { forall i :: 0 <= i < |ts| ==> !Nested(ts[i]) }

  lemma {:induction false} LeftShorter(ps: seq<Pattern>, ts: seq<string>)
    ensures |Left(ps, ts)| <= |ts|
    ensures Left(ps, ts) == ts ==> Untouched(ps, ts)
  {
    hide StripToken;
    if ts != [] {
      LeftShorter(ps, ts[1..]);
      assert ts == [ts[0]] + ts[1..];
    }
  }

  /** A second removal finds nothing exactly when no token was nested. */
  lemma {:induction false} HttpLeftSettles(ts: seq<string>)
    ensures Untouched(HTTP_PATTERNS, Left(HTTP_PATTERNS, ts)) <==> NoneNested(ts)
  {
    hide StripToken, HTTP_PATTERNS, Nested, Untouched;
    if ts != [] {
      HttpLeftSettles(ts[1..]);
      HttpStripTwice(ts[0]);
      StripEmpty(HTTP_PATTERNS);
      NestedCons(ts);
      UntouchedCons(HTTP_PATTERNS, ts);
    } else {
      UntouchedNone(HTTP_PATTERNS);
    }
  }

  lemma NestedCons(ts: seq<string>)
    requires ts != []
    ensures NoneNested(ts) <==> !Nested(ts[0]) && NoneNested(ts[1..])
  {
    hide Nested;
    assert forall i :: 0 <= i < |ts[1..]| ==> ts[1..][i] == ts[i + 1];
  }

  lemma UntouchedNone(ps: seq<Pattern>)
    ensures Untouched(ps, [])
  {
  }

  /** Whether the remains of the first token settle, and those of the others. */
  lemma UntouchedCons(ps: seq<Pattern>, ts: seq<string>)
    requires ts != []
    ensures
      var f := StripToken(ps, ts[0]);
      Untouched(ps, Left(ps, ts)) <==>
      (f == "" || StripToken(ps, f) == f) && Untouched(ps, Left(ps, ts[1..]))
  {
    hide StripToken, Untouched;
    var f, rest := StripToken(ps, ts[0]), Left(ps, ts[1..]);
    if f == "" {
      assert [] + rest == rest;
    } else {
      UntouchedConcat(ps, [f], rest);
      UntouchedSingle(ps, f);
    }
  }

  lemma UntouchedSingle(ps: seq<Pattern>, f: string)
    requires f != ""
    ensures Untouched(ps, [f]) <==> StripToken(ps, f) == f
  {
    hide StripToken;
    assert [f][0] == f;
  }

  /** A second removal of the NFS arguments finds nothing, whatever the arguments. */
  lemma {:induction false} NfsLeftSettles(ts: seq<string>)
    ensures Untouched(NFS_PATTERNS, Left(NFS_PATTERNS, ts))
  {
    hide StripToken, NFS_PATTERNS, Untouched;
    if ts != [] {
      NfsLeftSettles(ts[1..]);
      NfsStripTwice(ts[0]);
      UntouchedCons(NFS_PATTERNS, ts);
    } else {
      UntouchedNone(NFS_PATTERNS);
    }
  }

  /** What the first build writes, and what the second makes of it. */
  lemma NfsFirst(args: string, site: Site)
    requires Recognised(site)
    ensures
      var ts := Left(HTTP_PATTERNS, Tokens(args));
      var a := Join(" ", ts);
      BuildNfs(args, site) ==
      if AnyHolds(Mentions(NFSROOT.head), ts) then a else Join(" ", ts + (IpBits(a) + NfsOwn(a, site)))
    ensures AreTokens(Left(HTTP_PATTERNS, Tokens(args)))
  {
    var ts := Left(HTTP_PATTERNS, Tokens(args));
    var a := Join(" ", ts);
    KeptAreTokens(HTTP_PATTERNS, Tokens(args));
    hide Recognised, Tokens, Left, Holds, OptsBits, Fixed, AreTokens, AnyHolds, IpBits, HTTP_PATTERNS, With;
    Lengths();
    hide NFSROOT;
    JoinedHolds(Mentions(NFSROOT.head), ts);
    NfsBitsGo(a, site);
    IpTokens(a, NfsOwn(a, site));
    assert NfsBits(a, site) == IpBits(a) + NfsOwn(a, site) by { NfsBitsOrder(a, site); }
    WithIsJoin(ts, IpBits(a) + NfsOwn(a, site));
  }

  lemma NfsBitsOrder(a: string, site: Site)
    ensures NfsBits(a, site) == IpBits(a) + NfsOwn(a, site)
  {
    hide IpBits, OptsBits;
  }

  /** A second build over tokens that mention the NFS root only strips them again. */
  lemma NfsOver(ts: seq<string>, own: seq<string>, site: Site)
    requires Recognised(site) && AreTokens(ts) && AreTokens(own) && Untouched(HTTP_PATTERNS, own)
    requires AnyHolds(Mentions(NFSROOT.head), own)
    ensures BuildNfs(Join(" ", ts + own), site) == Join(" ", Left(HTTP_PATTERNS, ts) + own)
  {
    TokensConcatenated(ts, own);
    Lengths();
    hide Recognised, Tokens, Left, AreTokens, AnyHolds, IpBits, HTTP_PATTERNS, NFSROOT, Untouched, BuildNfs,
         NfsOwn;
    TokensOfJoin(ts + own);
    KeptConcat(HTTP_PATTERNS, ts, own);
    KeptUntouched(HTTP_PATTERNS, own);
    NfsFirst(Join(" ", ts + own), site);
    AnyConcat(Mentions(NFSROOT.head), Left(HTTP_PATTERNS, ts), own);
  }

  /** When what was left mentions the NFS root already: the second build cannot add what it
      did not find. */
  lemma NfsOnlyStripped(ts: seq<string>, site: Site)
    requires Recognised(site) && Apart(site) && AreTokens(ts) && AnyHolds(Mentions(NFSROOT.head), ts)
    ensures BuildNfs(Join(" ", ts), site) == Join(" ", ts) <==> Untouched(HTTP_PATTERNS, ts)
  {
    Lengths();
    hide Recognised, Apart, Tokens, Left, AreTokens, AnyHolds, IpBits, HTTP_PATTERNS, NFSROOT, Untouched,
         BuildNfs, NfsOwn;
    TokensOfJoin(ts);
    var again := Left(HTTP_PATTERNS, ts);
    NfsFirst(Join(" ", ts), site);
    LeftShorter(HTTP_PATTERNS, ts);
    if Untouched(HTTP_PATTERNS, ts) {
      KeptUntouched(HTTP_PATTERNS, ts);
    }
    if BuildNfs(Join(" ", ts), site) == Join(" ", ts) {
      if AnyHolds(Mentions(NFSROOT.head), again) {
        TokensOfJoin(again);
      } else {
        NotAddedAgain(ts, again, site);
      }
    }
  }

  /** Tokens that end in the added ones cannot lose the mention of the root by stripping. */
  lemma NotAddedAgain(ts: seq<string>, again: seq<string>, site: Site)
    requires Recognised(site) && Apart(site) && AreTokens(ts) && AreTokens(again)
    requires again == Left(HTTP_PATTERNS, ts)
    requires
      var a := Join(" ", again);
      Join(" ", again + (IpBits(a) + NfsOwn(a, site))) == Join(" ", ts)
    ensures AnyHolds(Mentions(NFSROOT.head), again)
  {
    Lengths();
    hide Recognised, Apart, Tokens, Left, AreTokens, AnyHolds, IpBits, HTTP_PATTERNS, NFSROOT, Untouched,
         NfsOwn;
    var a := Join(" ", again);
    var bits := IpBits(a) + NfsOwn(a, site);
    NfsOwnStays(a, site);
    IpStays(a, NfsOwn(a, site));
    TokensConcatenated(again, bits);
    TokensOfJoin(again + bits);
    TokensOfJoin(ts);
    KeptConcat(HTTP_PATTERNS, again, bits);
    KeptUntouched(HTTP_PATTERNS, bits);
    AnyConcat(Mentions(NFSROOT.head), IpBits(a), NfsOwn(a, site));
    AnyConcat(Mentions(NFSROOT.head), Left(HTTP_PATTERNS, again), bits);
  }

  lemma SameJoin(a: seq<string>, b: seq<string>)
    requires AreTokens(a) && AreTokens(b)
    ensures Join(" ", a) == Join(" ", b) <==> a == b
  {
    hide AreTokens, Tokens;
    TokensOfJoin(a);
    TokensOfJoin(b);
  }

  lemma SameFront(a: seq<string>, b: seq<string>, c: seq<string>)
    ensures a + c == b + c <==> a == b
  {
    if a + c == b + c {
      assert |a| == |b|;
      assert a == (a + c)[..|a|] && b == (b + c)[..|b|];
    }
  }

  /** Building NFS arguments from NFS arguments changes nothing, exactly when no token of the
      original ones holds a RAM disk token inside another. */
  lemma NfsTwice(args: string, site: Site)
    requires Apart(site) && Recognised(site)
    ensures BuildNfs(BuildNfs(args, site), site) == BuildNfs(args, site) <==> NoneNested(Tokens(args))
  {
    var ts := Left(HTTP_PATTERNS, Tokens(args));
    var a := Join(" ", ts);
    Lengths();
    hide Recognised, Apart, Tokens, Left, BuildNfs, AreTokens, AnyHolds, IpBits, Untouched, NoneNested,
         HTTP_PATTERNS, NFSROOT, NfsOwn;
    NfsFirst(args, site);
    HttpLeftSettles(Tokens(args));
    if AnyHolds(Mentions(NFSROOT.head), ts) {
      NfsOnlyStripped(ts, site);
    } else {
      var bits := IpBits(a) + NfsOwn(a, site);
      NfsOwnStays(a, site);
      IpStays(a, NfsOwn(a, site));
      AnyConcat(Mentions(NFSROOT.head), IpBits(a), NfsOwn(a, site));
      NfsOver(ts, bits, site);
      NfsTwiceAdded(ts, bits);
    }
  }

  lemma NfsTwiceAdded(ts: seq<string>, bits: seq<string>)
    requires AreTokens(ts) && AreTokens(bits)
    ensures Join(" ", Left(HTTP_PATTERNS, ts) + bits) == Join(" ", ts + bits) <==> Untouched(HTTP_PATTERNS, ts)
  {
    var again := Left(HTTP_PATTERNS, ts);
    KeptAreTokens(HTTP_PATTERNS, ts);
    hide Left, AreTokens, Untouched, HTTP_PATTERNS;
    TokensConcatenated(ts, bits);
    TokensConcatenated(again, bits);
    SameJoin(again + bits, ts + bits);
    SameFront(again, ts, bits);
    LeftShorter(HTTP_PATTERNS, ts);
    if Untouched(HTTP_PATTERNS, ts) { KeptUntouched(HTTP_PATTERNS, ts); }
  }

  lemma TokensConcatenated(a: seq<string>, b: seq<string>)
    requires AreTokens(a) && AreTokens(b)
    ensures AreTokens(a + b)
  {
    hide IsToken;
  }

  lemma IpStays(a: string, own: seq<string>)
    requires Untouched(HTTP_PATTERNS, own) && AreTokens(own)
    ensures Untouched(HTTP_PATTERNS, IpBits(a) + own) && AreTokens(IpBits(a) + own)
  {
    IpUntouched();
    hide Untouched, HTTP_PATTERNS, Holds, AreTokens;
    UntouchedConcat(HTTP_PATTERNS, [IP_DHCP], own);
    IpTokens(a, own);
    assert [] + own == own;
  }

  lemma StaysStripped(ps: seq<Pattern>, ts: seq<string>)
    requires AreTokens(ts) && Untouched(ps, ts)
    ensures StripArgs(ps, Join(" ", ts)) == Join(" ", ts)
  {
    hide StripToken, AreTokens, Untouched;
    TokensOfJoin(ts);
    KeptUntouched(ps, ts);
  }

  lemma HttpOwnStays(a: string, site: Site)
    requires Apart(site)
    ensures Untouched(NFS_PATTERNS, RootBits(a)) && Untouched(NFS_PATTERNS, RamdiskBits(a, site))
    ensures Untouched(NFS_PATTERNS, IsoBits(a, site))
  {
    Lengths();
    WordsStay();
    hide StripToken, Holds, RAM0, RAMDISK, URL, NFS_PATTERNS;
    UntouchedOne(NFS_PATTERNS, RAM0.text);
    UntouchedOne(NFS_PATTERNS, RAMDISK.head + site.ramdisk);
    if site.iso.Some? { UntouchedOne(NFS_PATTERNS, URL.head + site.iso.value); }
  }

  /** Once the bits were added, every guard they stand behind holds. */
  lemma HttpBitsHold(a: string, site: Site)
    ensures
      var bits := IpBits(a) + HttpOwn(a, site);
      && (Holds(Starts("ip="), a) || AnyHolds(Starts("ip="), bits))
      && (Holds(Is(RAM0.text), a) || AnyHolds(Is(RAM0.text), bits))
      && (Holds(Starts(RAMDISK.head), a) || AnyHolds(Starts(RAMDISK.head), bits))
      && (site.iso.None? || Holds(Starts(URL.head), a) || AnyHolds(Starts(URL.head), bits))
  {
    IpHolds();
    Lengths();
    HeadMentioned(RAMDISK.head, site.ramdisk);
    if site.iso.Some? { HeadMentioned(URL.head, site.iso.value); }
    assert TokenHolds(Is(RAM0.text), RAM0.text);
    hide TokenHolds, Holds, AnyHolds, RAM0, RAMDISK, URL, IP_DHCP;
    forall g ensures AnyHolds(g, IpBits(a) + HttpOwn(a, site)) <==>
                     AnyHolds(g, IpBits(a)) || AnyHolds(g, RootBits(a)) || AnyHolds(g, RamdiskBits(a, site)) ||
                     AnyHolds(g, IsoBits(a, site))
    {
      AnyConcat(g, IpBits(a), HttpOwn(a, site));
      AnyConcat(g, RootBits(a) + RamdiskBits(a, site), IsoBits(a, site));
      AnyConcat(g, RootBits(a), RamdiskBits(a, site));
    }
    OneHolds(Starts("ip="), IP_DHCP);
    OneHolds(Is(RAM0.text), RAM0.text);
    OneHolds(Starts(RAMDISK.head), RAMDISK.head + site.ramdisk);
    if site.iso.Some? { OneHolds(Starts(URL.head), URL.head + site.iso.value); }
  }

  lemma HttpUntouched(ts: seq<string>, a: string, site: Site)
    requires Apart(site) && Untouched(NFS_PATTERNS, ts)
    ensures Untouched(NFS_PATTERNS, ts + (IpBits(a) + HttpOwn(a, site)))
  {
    IpUntouched();
    hide Apart, Untouched, NFS_PATTERNS, Holds, RootBits, RamdiskBits, IsoBits, IP_DHCP;
    HttpOwnStays(a, site);
    UntouchedConcat(NFS_PATTERNS, RootBits(a), RamdiskBits(a, site));
    UntouchedConcat(NFS_PATTERNS, RootBits(a) + RamdiskBits(a, site), IsoBits(a, site));
    UntouchedConcat(NFS_PATTERNS, IpBits(a), HttpOwn(a, site));
    UntouchedConcat(NFS_PATTERNS, ts, IpBits(a) + HttpOwn(a, site));
    assert [] + HttpOwn(a, site) == HttpOwn(a, site);
  }

  /** Building HTTP arguments from HTTP arguments changes nothing, whatever the arguments. */
  lemma HttpTwice(args: string, site: Site)
    requires Apart(site) && Recognised(site)
    ensures BuildHttp(BuildHttp(args, site), site) == BuildHttp(args, site)
  {
    var ts := Left(NFS_PATTERNS, Tokens(args));
    var a := Join(" ", ts);
    assert StripArgs(NFS_PATTERNS, args) == a;
    KeptAreTokens(NFS_PATTERNS, Tokens(args));
    NfsLeftSettles(Tokens(args));
    hide Recognised, Apart, Tokens, Left, BuildHttp, Holds, RootBits, RamdiskBits, IsoBits, AreTokens, AnyHolds,
         IpBits, Untouched, NFS_PATTERNS, IP_DHCP, StripToken, StripArgs;
    StaysStripped(NFS_PATTERNS, ts);
    HttpFrom(args, a, site);
    HttpOfTokens(ts, site, a);
    var bits := IpBits(a) + HttpOwn(a, site);
    HttpBitsGo(a, site);
    IpTokens(a, HttpOwn(a, site));
    TokensConcatenated(ts, bits);
    HttpUntouched(ts, a, site);
    StaysStripped(NFS_PATTERNS, ts + bits);
    HttpOfTokens(ts + bits, site, Join(" ", ts + bits));
    NothingLeft(ts, a, bits, site);
    assert (ts + bits) + ([] + []) == ts + bits;
  }

  lemma NothingLeft(ts: seq<string>, a: string, bits: seq<string>, site: Site)
    requires AreTokens(ts) && a == Join(" ", ts) && bits == IpBits(a) + HttpOwn(a, site) && AreTokens(ts + bits)
    ensures
      var b := Join(" ", ts + bits);
      IpBits(b) == [] && HttpOwn(b, site) == []
  {
    Lengths();
    HttpBitsHold(a, site);
    hide AnyHolds, Holds, AreTokens, RAM0, RAMDISK, URL, IP_DHCP;
    forall g ensures Holds(g, Join(" ", ts + bits)) <==> Holds(g, a) || AnyHolds(g, bits) {
      JoinedHolds(g, ts + bits);
      JoinedHolds(g, ts);
      AnyConcat(g, ts, bits);
    }
  }

  // ---- Where a second build differs -------------------------------------

  /** On the shortest nested token the second build differs from the first. */
  lemma NestedBuildDiffers(site: Site)
    requires Apart(site) && Recognised(site)
    ensures BuildNfs(BuildNfs(NESTED, site), site) != BuildNfs(NESTED, site)
  {
    NestedIsToken();
    hide Apart, Recognised, BuildNfs, NESTED, Nested, Tokens, IsToken;
    NfsTwice(NESTED, site);
    NestedIsNested();
    TokensOfToken(NESTED);
    assert Tokens(NESTED)[0] == NESTED;
  }

  lemma NestedIsToken()
    ensures IsToken(NESTED)
  {
    assert IsToken("root=") && IsToken(TAIL);
    FixedWords();
    hide RAM0, TAIL;
    AllConcat(NotSpace, "root=", RAM0.text);
    AllConcat(NotSpace, "root=" + RAM0.text, TAIL);
  }

  // ---- Values that keep apart -------------------------------------------

  /** A match in a value behind a key of word characters lies in the value, for a pattern that
      starts differently. */
  lemma KeyedMatch(p: Pattern, head: string, x: string, j: nat)
    requires IsKey(head) && !IsWord(head[|head| - 1]) && HeadOf(p) != "" && IsWord(HeadOf(p)[0])
    requires head[0] != HeadOf(p)[0] && MatchAt(p, head + x, j)
    ensures j >= |head| && MatchAt(p, x, j - |head|)
  {
    var t := head + x;
    MatchMeans(p, t, j);
    hide MatchAt;
    assert t[0] == head[0];
    assert forall k :: 0 <= k < |head| ==> t[k] == head[k];
    assert t[|head|..] == x;
    if j >= |head| { SuffixMatch(p, t, |head|, j - |head|); }
  }

  lemma KeyedPlain(p: Pattern, head: string, x: string)
    requires IsKey(head) && !IsWord(head[|head| - 1]) && HeadOf(p) != "" && IsWord(HeadOf(p)[0])
    requires head[0] != HeadOf(p)[0] && Plain(p, x)
    ensures Plain(p, head + x)
  {
    hide MatchAt, IsKey;
    forall j: nat ensures !MatchAt(p, head + x, j) {
      if MatchAt(p, head + x, j) { KeyedMatch(p, head, x, j); }
    }
  }

  /** First characters of the patterns and of the keys the server writes. */
  lemma KeyStarts()
    ensures forall i :: 0 <= i < |HTTP_PATTERNS| ==>
              HeadOf(HTTP_PATTERNS[i]) != "" && IsWord(HeadOf(HTTP_PATTERNS[i])[0]) &&
              HeadOf(HTTP_PATTERNS[i])[0] != 'n' && '=' in HeadOf(HTTP_PATTERNS[i])
    ensures forall i :: 0 <= i < |NFS_PATTERNS| ==>
              HeadOf(NFS_PATTERNS[i]) != "" && IsWord(HeadOf(NFS_PATTERNS[i])[0]) &&
              HeadOf(NFS_PATTERNS[i])[0] != 'r' && HeadOf(NFS_PATTERNS[i])[0] != 'u' &&
              '=' in HeadOf(NFS_PATTERNS[i])
  {
    NfsStarts();
    HttpStarts();
    hide IsWord, CASPER, NETBOOT, NFSROOT, NFSOPTS, RAM0, RAMDISK, URL, NOCLOUD_NET, NOCLOUD, CLOUD_CONFIG;
  }

  predicate StartsAs(p: Pattern, c: char) {
    HeadOf(p) != "" && IsWord(c) && HeadOf(p)[0] == c && '=' in HeadOf(p)
  }

  lemma NfsStarts()
    ensures StartsAs(CASPER, 'b') && StartsAs(NETBOOT, 'n') && StartsAs(NFSROOT, 'n') && StartsAs(NFSOPTS, 'n')
  {
    assert CASPER.text[4] == '=' && NETBOOT.text[7] == '=' && NFSROOT.head[7] == '=' && NFSOPTS.head[7] == '=';
  }

  lemma HttpStarts()
    ensures StartsAs(RAM0, 'r') && StartsAs(RAMDISK, 'r') && StartsAs(URL, 'u')
    ensures StartsAs(NOCLOUD_NET, 'd') && StartsAs(NOCLOUD, 'd') && StartsAs(CLOUD_CONFIG, 'c')
  {
    assert RAM0.text[4] == '=' && RAMDISK.head[12] == '=' && URL.head[3] == '=';
    assert NOCLOUD_NET.head[2] == '=' && NOCLOUD.head[2] == '=' && CLOUD_CONFIG.head[16] == '=';
  }

  lemma KeyEnds()
    ensures IsKey(NFSROOT.head) && !IsWord(NFSROOT.head[|NFSROOT.head| - 1]) && NFSROOT.head[0] == 'n'
    ensures IsKey(NFSOPTS.head) && !IsWord(NFSOPTS.head[|NFSOPTS.head| - 1]) && NFSOPTS.head[0] == 'n'
    ensures IsKey(RAMDISK.head) && !IsWord(RAMDISK.head[|RAMDISK.head| - 1]) && RAMDISK.head[0] == 'r'
    ensures IsKey(URL.head) && !IsWord(URL.head[|URL.head| - 1]) && URL.head[0] == 'u'
  {
    NfsKeys();
    HttpKeys();
    hide IsKey;
  }

  lemma HttpKeyed(head: string, x: string)
    requires IsKey(head) && !IsWord(head[|head| - 1]) && head[0] == 'n' && PlainFor(HTTP_PATTERNS, x)
    ensures StripToken(HTTP_PATTERNS, head + x) == head + x
  {
    hide IsKey, IsWord, HTTP_PATTERNS, Plain, StripToken;
    KeyStarts();
    forall i | 0 <= i < |HTTP_PATTERNS| ensures Plain(HTTP_PATTERNS[i], head + x) {
      assert Plain(HTTP_PATTERNS[i], x);
      KeyedPlain(HTTP_PATTERNS[i], head, x);
    }
    StripPlain(HTTP_PATTERNS, head + x);
  }

  lemma NfsKeyed(head: string, x: string)
    requires IsKey(head) && !IsWord(head[|head| - 1]) && (head[0] == 'r' || head[0] == 'u')
    requires PlainFor(NFS_PATTERNS, x)
    ensures StripToken(NFS_PATTERNS, head + x) == head + x
  {
    hide IsKey, IsWord, NFS_PATTERNS, Plain, StripToken;
    KeyStarts();
    forall i | 0 <= i < |NFS_PATTERNS| ensures Plain(NFS_PATTERNS[i], head + x) {
      assert Plain(NFS_PATTERNS[i], x);
      KeyedPlain(NFS_PATTERNS[i], head, x);
    }
    StripPlain(NFS_PATTERNS, head + x);
  }

  /** The server's values hold no token of the other mode. */
  ghost predicate KeepsApart(site: Site) {
    && PlainFor(HTTP_PATTERNS, site.nfsRoot) && PlainFor(HTTP_PATTERNS, site.nfsOpts)
    && PlainFor(NFS_PATTERNS, site.ramdisk)
    && (site.iso.Some? ==> PlainFor(NFS_PATTERNS, site.iso.value))
  }

  lemma KeptApart(site: Site)
    requires KeepsApart(site)
    ensures Apart(site)
  {
    Lengths();
    KeyEnds();
    hide IsKey, IsWord, PlainFor, StripToken, NFS_PATTERNS, HTTP_PATTERNS, NFSROOT, NFSOPTS, RAMDISK, URL;
    HttpKeyed(NFSROOT.head, site.nfsRoot);
    HttpKeyed(NFSOPTS.head, site.nfsOpts);
    NfsKeyed(RAMDISK.head, site.ramdisk);
    if site.iso.Some? { NfsKeyed(URL.head, site.iso.value); }
  }

  lemma AbsentPlain(p: Pattern, t: string, c: char)
    requires c in HeadOf(p) && c !in t
    ensures Plain(p, t)
  {
    hide MatchAt;
    forall i: nat ensures !MatchAt(p, t, i) {
      MatchMeans(p, t, i);
      AtHas(HeadOf(p), t, i, c);
    }
  }

  lemma AtHas(h: string, t: string, i: nat, c: char)
    ensures At(h, t, i) && c in h ==> c in t
  {
    if At(h, t, i) && c in h {
      var k :| 0 <= k < |h| && h[k] == c;
      assert t[i + k] == h[k];
    }
  }

  /** A value without an equals sign holds no token of either mode. */
  lemma NoEqualsPlain(x: string)
    requires '=' !in x
    ensures PlainFor(HTTP_PATTERNS, x) && PlainFor(NFS_PATTERNS, x)
  {
    hide IsWord, HTTP_PATTERNS, NFS_PATTERNS, Plain;
    KeyStarts();
    forall i | 0 <= i < |HTTP_PATTERNS| ensures Plain(HTTP_PATTERNS[i], x) {
      AbsentPlain(HTTP_PATTERNS[i], x, '=');
    }
    forall i | 0 <= i < |NFS_PATTERNS| ensures Plain(NFS_PATTERNS[i], x) {
      AbsentPlain(NFS_PATTERNS[i], x, '=');
    }
  }

  /** The mount options the server has by default. */
  const DEFAULT_OPTS := "vers=4,tcp"

  lemma DefaultChars()
    ensures |DEFAULT_OPTS| == 10 && 'u' !in DEFAULT_OPTS && All(NotSpace, DEFAULT_OPTS) && DEFAULT_OPTS[0] == 'v'
  {
  }

  lemma DefaultPlain()
    ensures PlainFor(HTTP_PATTERNS, DEFAULT_OPTS)
  {
    Lengths();
    FirstChars();
    DefaultChars();
    hide MatchAt, Plain, DEFAULT_OPTS, RAM0, RAMDISK, URL, NOCLOUD_NET, NOCLOUD, CLOUD_CONFIG;
    ShortPlain(RAM0, DEFAULT_OPTS);
    ShortPlain(RAMDISK, DEFAULT_OPTS);
    FirstPlain(URL, DEFAULT_OPTS);
    ShortPlain(NOCLOUD_NET, DEFAULT_OPTS);
    ShortPlain(NOCLOUD, DEFAULT_OPTS);
    ShortPlain(CLOUD_CONFIG, DEFAULT_OPTS);
  }

  /** The usual values, with no equals sign but those of the default mount options, mean
      nothing to the other mode. */
  lemma UsualIsApart(site: Site)
    requires '=' !in site.nfsRoot && '=' !in site.ramdisk && (site.iso.Some? ==> '=' !in site.iso.value)
    requires site.nfsOpts == DEFAULT_OPTS || '=' !in site.nfsOpts
    ensures Apart(site)
  {
    hide Apart, PlainFor, DEFAULT_OPTS, NFS_PATTERNS, HTTP_PATTERNS;
    NoEqualsPlain(site.nfsRoot);
    NoEqualsPlain(site.ramdisk);
    if site.iso.Some? { NoEqualsPlain(site.iso.value); }
    DefaultPlain();
    if site.nfsOpts != DEFAULT_OPTS { NoEqualsPlain(site.nfsOpts); }
    KeptApart(site);
  }

  // ---- The administrator's tokens ---------------------------------------

  /** The patterns a mode removes first: those of the other one. */
  function Foreign(nfs: bool): seq<Pattern> { if nfs then HTTP_PATTERNS else NFS_PATTERNS }

  function BuildUbuntu(args: string, nfs: bool, site: Site): string {
    if nfs then BuildNfs(args, site) else BuildHttp(args, site)
  }

  lemma WithTokens(a: string, bits: seq<string>)
    ensures Tokens(With(a, bits)) == Tokens(a) + Tokens(Join(" ", bits))
  {
    hide Tokens, Strip;
    if bits == [] {
      TokensStrip(a);
      TokensOfNothing();
      assert Tokens(a) + [] == Tokens(a);
    } else {
      AddedTokens(a, Join(" ", bits), false);
    }
  }

  lemma TokensOfNothing()
    ensures Tokens("") == []
  {
  }

  /** What the other mode's patterns leave of the arguments comes first, in order. */
  lemma UbuntuKeeps(args: string, nfs: bool, site: Site) returns (back: seq<string>)
    ensures Tokens(BuildUbuntu(args, nfs, site)) == Left(Foreign(nfs), Tokens(args)) + back
  {
    hide Tokens, Left, Holds, With, NfsBits, HttpBits, StripArgs, NFS_PATTERNS, HTTP_PATTERNS;
    var a := StripArgs(Foreign(nfs), args);
    StripArgsTokens(Foreign(nfs), args);
    WithTokens(a, NfsBits(a, site));
    WithTokens(a, HttpBits(a, site));
    if nfs && Holds(Mentions(NFSROOT.head), a) {
      back := [];
    } else {
      back := Tokens(Join(" ", if nfs then NfsBits(a, site) else HttpBits(a, site)));
    }
  }

  /** Tokens of the administrator's that the patterns do not touch stay, together and in order. */
  lemma UbuntuOwn(
    args: string, nfs: bool, site: Site, front: seq<string>, own: seq<string>, rest: seq<string>)
    returns (before: seq<string>, after: seq<string>)
    requires Tokens(args) == front + own + rest && Untouched(Foreign(nfs), own)
    ensures Tokens(BuildUbuntu(args, nfs, site)) == before + own + after
  {
    hide Tokens, Left, BuildUbuntu, Untouched, Foreign;
    var back := UbuntuKeeps(args, nfs, site);
    KeptConcat(Foreign(nfs), front + own, rest);
    KeptConcat(Foreign(nfs), front, own);
    KeptUntouched(Foreign(nfs), own);
    before, after := Left(Foreign(nfs), front), Left(Foreign(nfs), rest) + back;
    Assoc(before + own, Left(Foreign(nfs), rest), back);
  }
}
