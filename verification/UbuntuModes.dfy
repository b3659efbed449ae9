/** The two ways to boot Ubuntu, over NFS and over HTTP: each removes the other's kernel
    arguments before it adds its own. */
module UbuntuModes {
  import opened Text
  import opened Url
  import opened Kernelopt
  import opened KernelArgs
  import opened StripTokens

  const CASPER := Exact("boot=casper")
  const NETBOOT := Exact("netboot=nfs")
  const NFSROOT := ToEnd("nfsroot=", true)
  const NFSOPTS := ToEnd("nfsopts=", true)

  const NFS_PATTERNS: seq<Pattern> := [CASPER, NETBOOT, NFSROOT, NFSOPTS]

  const RAM0 := Exact("root=/dev/ram0")
  const RAMDISK := ToEnd("ramdisk_size=", true)
  const URL := ToEnd("url=", true)
  const NOCLOUD_NET := ToEnd("ds=nocloud-net", false)
  const NOCLOUD := ToEnd("ds=nocloud;", false)
  const CLOUD_CONFIG := ToEnd("cloud-config-url=", true)

  const HTTP_PATTERNS: seq<Pattern> := [RAM0, RAMDISK, URL, NOCLOUD_NET, NOCLOUD, CLOUD_CONFIG]

  /** What the server configures: the NFS export and its cleaned mount options, the RAM disk
      size and the ISO's URL, if it is served. */
  datatype Site = Site(nfsRoot: string, nfsOpts: string, ramdisk: string, iso: Option<string>)

  const IP_DHCP := "ip=dhcp"

  function IpBits(args: string): seq<string> { if Holds(Starts("ip="), args) then [] else [IP_DHCP] }

  function OptsBits(args: string, site: Site): seq<string> {
    if site.nfsOpts == "" || Holds(Mentions(NFSOPTS.head), args) then [] else [NFSOPTS.head + site.nfsOpts]
  }

  function NfsBits(args: string, site: Site): seq<string> {
    IpBits(args) + [CASPER.text, NETBOOT.text, NFSROOT.head + site.nfsRoot] + OptsBits(args, site)
  }

  function RootBits(args: string): seq<string> {
    if Holds(Is(RAM0.text), args) then [] else [RAM0.text]
  }

  function RamdiskBits(args: string, site: Site): seq<string> {
    if Holds(Starts(RAMDISK.head), args) then [] else [RAMDISK.head + site.ramdisk]
  }

  function IsoBits(args: string, site: Site): seq<string> {
    if site.iso.None? || Holds(Starts(URL.head), args) then [] else [URL.head + site.iso.value]
  }

  function HttpBits(args: string, site: Site): seq<string> {
    IpBits(args) + RootBits(args) + RamdiskBits(args, site) + IsoBits(args, site)
  }

  function With(args: string, bits: seq<string>): string {
    if bits == [] then Strip(args) else Added(args, Join(" ", bits), false)
  }

  function BuildNfs(args: string, site: Site): string {
    var a := StripArgs(HTTP_PATTERNS, args);
    if Holds(Mentions(NFSROOT.head), a) then a else With(a, NfsBits(a, site))
  }

  function BuildHttp(args: string, site: Site): string {
    var a := StripArgs(NFS_PATTERNS, args);
    With(a, HttpBits(a, site))
  }

  method AppendHttpArgs(args: string, site: Site) returns (r: string)
    ensures r == With(args, HttpBits(args, site))
  {
    hide Holds, Added, Strip;
    var bits: seq<string> := [];
    if !Holds(Is(RAM0.text), args) {
      bits := bits + [RAM0.text];
    }
    if !Holds(Starts(RAMDISK.head), args) {
      bits := bits + [RAMDISK.head + site.ramdisk];
    }
    if !Holds(Starts("ip="), args) {
      bits := [IP_DHCP] + bits;
    }
    if site.iso.Some? && !Holds(Starts(URL.head), args) {
      bits := bits + [URL.head + site.iso.value];
    }
    HttpOrder(args, site);
    assert bits == IpBits(args) + (RootBits(args) + RamdiskBits(args, site)) + IsoBits(args, site);
    if bits == [] {
      return Strip(args);
    }
    r := Added(args, Join(" ", bits), false);
  }

  lemma HttpOrder(args: string, site: Site)
    ensures HttpBits(args, site) ==
            IpBits(args) + (RootBits(args) + RamdiskBits(args, site)) + IsoBits(args, site)
  {
    hide IpBits, RootBits, RamdiskBits, IsoBits;
  }

  method BuildUbuntuArgs(args: string, nfs: bool, site: Site) returns (r: string)
    ensures r == if nfs then BuildNfs(args, site) else BuildHttp(args, site)
  {
    hide Holds, Added, Strip, StripArgs, HttpBits;
    if nfs {
      r := StripArgs(HTTP_PATTERNS, args);
      if !Holds(Mentions(NFSROOT.head), r) {
        var bits := [CASPER.text, NETBOOT.text, NFSROOT.head + site.nfsRoot];
        if !Holds(Starts("ip="), r) {
          bits := [IP_DHCP] + bits;
        }
        if site.nfsOpts != "" && !Holds(Mentions(NFSOPTS.head), r) {
          bits := bits + [NFSOPTS.head + site.nfsOpts];
        }
        assert bits == NfsBits(r, site);
        r := Added(r, Join(" ", bits), false);
      }
    } else {
      r := StripArgs(NFS_PATTERNS, args);
      r := AppendHttpArgs(r, site);
    }
  }

  // ---- Tokens of the results --------------------------------------------

  /** Stripped arguments with bits added are their tokens, one space apart. */
  lemma WithIsJoin(ts: seq<string>, bits: seq<string>)
    requires AreTokens(ts) && AreTokens(bits)
    ensures With(Join(" ", ts), bits) == Join(" ", ts + bits)
  {
    assert AreTokens(ts + bits);
    JoinTrimmed(ts);
    JoinTrimmed(ts + bits);
    hide AreTokens, Strip, Tokens;
    if bits == [] {
      assert ts + bits == ts;
    } else if ts == [] {
      assert ts + bits == bits;
      SpaceIsSpace();
      hide All;
      StripLeft(" ", Join(" ", bits));
    } else {
      JoinConcat(ts, bits);
    }
  }

  lemma {:induction false} JoinConcat(a: seq<string>, b: seq<string>)
    requires a != [] && b != []
    ensures Join(" ", a + b) == Join(" ", a) + " " + Join(" ", b)
  {
    if |a| == 1 {
      assert (a + b)[1..] == b;
    } else {
      assert (a + b)[1..] == a[1..] + b;
      JoinConcat(a[1..], b);
    }
  }

  // ---- The fixed tokens -------------------------------------------------

  lemma ShortPlain(p: Pattern, t: string)
    requires |t| < |HeadOf(p)|
    ensures Plain(p, t)
  {
  }

  lemma MatchHead(p: Pattern, t: string, i: nat)
    requires HeadOf(p) != "" && MatchAt(p, t, i)
    ensures i < |t| && t[i] == HeadOf(p)[0]
  {
    assert t[i..][..|HeadOf(p)|][0] == t[i];
  }

  lemma FirstPlain(p: Pattern, t: string)
    requires HeadOf(p) != "" && HeadOf(p)[0] !in t
    ensures Plain(p, t)
  {
    hide MatchAt;
    forall i: nat ensures !MatchAt(p, t, i) {
      if MatchAt(p, t, i) { MatchHead(p, t, i); }
    }
  }

  lemma SamePlain(p: Pattern, t: string)
    requires |t| == |HeadOf(p)| && t != HeadOf(p)
    ensures Plain(p, t)
  {
    assert t[0..] == t && t[..|t|] == t;
  }

  lemma Lengths()
    ensures CASPER.Exact? && NETBOOT.Exact? && NFSROOT.ToEnd? && NFSOPTS.ToEnd?
    ensures RAM0.Exact? && RAMDISK.ToEnd? && URL.ToEnd? && NOCLOUD_NET.ToEnd? && NOCLOUD.ToEnd?
    ensures CLOUD_CONFIG.ToEnd?
    ensures |CASPER.text| == |NETBOOT.text| == 11 && |NFSROOT.head| == |NFSOPTS.head| == 8
    ensures |RAM0.text| == 14 && |RAMDISK.head| == 13 && |URL.head| == 4 && |NOCLOUD_NET.head| == 14
    ensures |NOCLOUD.head| == 11 && |CLOUD_CONFIG.head| == 17 && |IP_DHCP| == 7
  {
  }

  lemma FirstChars()
    ensures URL.head[0] == 'u' && 'u' !in IP_DHCP && CASPER.text[0] == 'b' && NETBOOT.text[0] == 'n'
  {
  }

  lemma IpPlain()
    ensures PlainFor(NFS_PATTERNS, IP_DHCP) && PlainFor(HTTP_PATTERNS, IP_DHCP)
  {
    Lengths();
    FirstChars();
    hide MatchAt, Plain, CASPER, NETBOOT, NFSROOT, NFSOPTS, RAM0, RAMDISK, URL, NOCLOUD_NET, NOCLOUD, CLOUD_CONFIG,
         IP_DHCP;
    FirstPlain(URL, IP_DHCP);
    ShortPlain(CASPER, IP_DHCP);
    ShortPlain(NETBOOT, IP_DHCP);
    ShortPlain(NFSROOT, IP_DHCP);
    ShortPlain(NFSOPTS, IP_DHCP);
    ShortPlain(RAM0, IP_DHCP);
    ShortPlain(RAMDISK, IP_DHCP);
    ShortPlain(NOCLOUD_NET, IP_DHCP);
    ShortPlain(NOCLOUD, IP_DHCP);
    ShortPlain(CLOUD_CONFIG, IP_DHCP);
  }

  lemma IpUntouched()
    ensures Untouched(NFS_PATTERNS, [IP_DHCP]) && Untouched(HTTP_PATTERNS, [IP_DHCP])
  {
    Lengths();
    IpPlain();
    hide PlainFor, NFS_PATTERNS, HTTP_PATTERNS, IP_DHCP;
    StripPlain(NFS_PATTERNS, IP_DHCP);
    StripPlain(HTTP_PATTERNS, IP_DHCP);
  }

  /** A token that is the text of a pattern goes away, once the patterns before it let it pass. */
  lemma {:induction false} ExactGoes(ps: seq<Pattern>, k: nat, t: string)
    requires k < |ps| && ps[k] == Exact(t) && t != ""
    requires forall i :: 0 <= i < k ==> Plain(ps[i], t)
    ensures StripToken(ps, t) == ""
    decreases |ps|
  {
    if k == 0 {
      assert t[0..] == t && t[..|t|] == t;
      SubWhole(ps[0], t);
      StripEmpty(ps[1..]);
    } else {
      assert Plain(ps[0], t);
      hide MatchAt, Plain, Sub;
      SubPlain(ps[0], t);
      assert forall i :: 0 <= i < |ps[1..]| ==> ps[1..][i] == ps[i + 1];
      ExactGoes(ps[1..], k - 1, t);
    }
  }

  lemma WordsGo()
    ensures StripToken(NFS_PATTERNS, CASPER.text) == "" && StripToken(NFS_PATTERNS, NETBOOT.text) == ""
    ensures StripToken(HTTP_PATTERNS, RAM0.text) == ""
  {
    Lengths();
    FirstChars();
    hide MatchAt, Plain, StripToken, CASPER, NETBOOT, NFSROOT, NFSOPTS, RAM0, RAMDISK, URL, NOCLOUD_NET, NOCLOUD,
         CLOUD_CONFIG;
    SamePlain(CASPER, NETBOOT.text);
    ExactGoes(NFS_PATTERNS, 0, CASPER.text);
    ExactGoes(NFS_PATTERNS, 1, NETBOOT.text);
    ExactGoes(HTTP_PATTERNS, 0, RAM0.text);
  }

  // ---- What the server configures ---------------------------------------

  /** The server's own values are recognised by the patterns meant for them. */
  predicate Recognised(site: Site) {
    && IsToken(NFSROOT.head + site.nfsRoot) && StripToken(NFS_PATTERNS, NFSROOT.head + site.nfsRoot) == ""
    && IsToken(NFSOPTS.head + site.nfsOpts)
    && (site.nfsOpts != "" ==> StripToken(NFS_PATTERNS, NFSOPTS.head + site.nfsOpts) == "")
    && IsToken(RAMDISK.head + site.ramdisk)
    && StripToken(HTTP_PATTERNS, RAMDISK.head + site.ramdisk) == ""
    && (site.iso.Some? ==>
          IsToken(URL.head + site.iso.value) && StripToken(HTTP_PATTERNS, URL.head + site.iso.value) == "")
  }

  /** Arguments with no token of either mode. */
  predicate Neutral(args: string) {
    Untouched(NFS_PATTERNS, Tokens(args)) && Untouched(HTTP_PATTERNS, Tokens(args))
  }

  function Fixed(site: Site): seq<string> { [CASPER.text, NETBOOT.text, NFSROOT.head + site.nfsRoot] }

  lemma FixedWords()
    ensures IsToken(CASPER.text) && IsToken(NETBOOT.text) && IsToken(RAM0.text) && IsToken(IP_DHCP)
  {
    CasperWords();
  }

  lemma CasperWords()
    ensures IsToken(CASPER.text) && IsToken(NETBOOT.text)
  {
  }

  lemma NfsBitsGo(args: string, site: Site)
    requires Recognised(site)
    ensures Removed(NFS_PATTERNS, Fixed(site) + OptsBits(args, site))
    ensures AreTokens(Fixed(site) + OptsBits(args, site))
  {
    FixedWords();
    WordsGo();
    hide StripToken, Holds, IsToken, CASPER, NETBOOT, NFSROOT, NFSOPTS, NFS_PATTERNS;
  }

  lemma HttpBitsGo(args: string, site: Site)
    requires Recognised(site)
    ensures Removed(HTTP_PATTERNS, RootBits(args) + RamdiskBits(args, site) + IsoBits(args, site))
    ensures AreTokens(RootBits(args) + RamdiskBits(args, site) + IsoBits(args, site))
  {
    FixedWords();
    WordsGo();
    hide StripToken, Holds, IsToken, RAM0, RAMDISK, URL, HTTP_PATTERNS;
  }

  // ---- Tokens in and out ------------------------------------------------

  lemma JoinedHolds(g: Guard, ts: seq<string>)
    requires AreTokens(ts)
    ensures Holds(g, Join(" ", ts)) <==> AnyHolds(g, ts)
  {
    hide AnyHolds, Tokens, AreTokens;
    TokensOfJoin(ts);
  }

  /** "ip=dhcp" satisfies none of the guards but its own. */
  lemma IpHolds()
    ensures !TokenHolds(Mentions(NFSROOT.head), IP_DHCP) && !TokenHolds(Mentions(NFSOPTS.head), IP_DHCP)
    ensures !TokenHolds(Starts(RAMDISK.head), IP_DHCP) && !TokenHolds(Starts(URL.head), IP_DHCP)
    ensures !TokenHolds(Is(RAM0.text), IP_DHCP) && TokenHolds(Starts("ip="), IP_DHCP)
  {
    Lengths();
    FirstChars();
    assert IP_DHCP[..3] == "ip=";
    hide CASPER, NETBOOT, NFSROOT, NFSOPTS, RAM0, RAMDISK, URL;
    assert forall i :: 0 <= i <= |IP_DHCP| ==> |IP_DHCP[i..]| <= 7;
    assert IP_DHCP[..4][0] == 'i';
  }

  lemma OneHolds(g: Guard, t: string)
    ensures AnyHolds(g, [t]) <==> TokenHolds(g, t)
  {
    hide TokenHolds;
    assert [t][0] == t;
  }

  /** Whether the guards of the added bits hold does not depend on "ip=dhcp" being there. */
  lemma IpAside(ts: seq<string>)
    ensures forall g :: g in {Mentions(NFSROOT.head), Mentions(NFSOPTS.head), Starts(RAMDISK.head),
                              Starts(URL.head), Is(RAM0.text)} ==>
              (AnyHolds(g, ts + [IP_DHCP]) <==> AnyHolds(g, ts))
    ensures AnyHolds(Starts("ip="), ts + [IP_DHCP])
  {
    IpHolds();
    hide TokenHolds, AnyHolds;
    forall g | g in {Mentions(NFSROOT.head), Mentions(NFSOPTS.head), Starts(RAMDISK.head), Starts(URL.head),
                     Is(RAM0.text)}
      ensures AnyHolds(g, ts + [IP_DHCP]) <==> AnyHolds(g, ts)
    {
      AnyConcat(g, ts, [IP_DHCP]);
      OneHolds(g, IP_DHCP);
    }
    AnyConcat(Starts("ip="), ts, [IP_DHCP]);
    OneHolds(Starts("ip="), IP_DHCP);
  }

  lemma StripNeutral(ps: seq<Pattern>, ts: seq<string>, gone: seq<string>)
    requires AreTokens(ts) && AreTokens(gone) && Untouched(ps, ts) && Removed(ps, gone)
    ensures StripArgs(ps, Join(" ", ts + gone)) == Join(" ", ts)
  {
    assert AreTokens(ts + gone);
    hide StripToken, AreTokens, Tokens, IsToken;
    TokensOfJoin(ts + gone);
    KeptConcat(ps, ts, gone);
    KeptUntouched(ps, ts);
    KeptRemoved(ps, gone);
    assert ts + [] == ts;
  }

  lemma IpTokens(args: string, bits: seq<string>)
    requires AreTokens(bits)
    ensures AreTokens(IpBits(args) + bits)
  {
    FixedWords();
    hide IsToken, Holds, IP_DHCP;
  }

  /** What a boot over NFS gets: the arguments, DHCP unless they set the address, the mode. */
  lemma NfsOfTokens(ts: seq<string>, site: Site, a: string)
    requires AreTokens(ts) && Recognised(site) && a == Join(" ", ts)
    requires StripArgs(HTTP_PATTERNS, a) == a
    ensures BuildNfs(a, site) ==
            if AnyHolds(Mentions(NFSROOT.head), ts) then a
            else Join(" ", ts + (IpBits(a) + (Fixed(site) + OptsBits(a, site))))
  {
    Lengths();
    hide Holds, AnyHolds, StripArgs, Recognised, AreTokens, IpBits, OptsBits, With, CASPER, NETBOOT, NFSROOT,
         NFSOPTS, IP_DHCP;
    NfsBitsGo(a, site);
    JoinedHolds(Mentions(NFSROOT.head), ts);
    IpTokens(a, Fixed(site) + OptsBits(a, site));
    Assoc(IpBits(a), Fixed(site), OptsBits(a, site));
    WithIsJoin(ts, IpBits(a) + (Fixed(site) + OptsBits(a, site)));
  }

  lemma HttpOfTokens(ts: seq<string>, site: Site, a: string)
    requires AreTokens(ts) && Recognised(site) && a == Join(" ", ts)
    requires StripArgs(NFS_PATTERNS, a) == a
    ensures BuildHttp(a, site) ==
            Join(" ", ts + (IpBits(a) + (RootBits(a) + RamdiskBits(a, site) + IsoBits(a, site))))
  {
    hide Holds, StripArgs, Recognised, AreTokens, IpBits, RootBits, RamdiskBits, IsoBits, With;
    HttpBitsGo(a, site);
    var own := RootBits(a) + RamdiskBits(a, site) + IsoBits(a, site);
    IpTokens(a, own);
    assert HttpBits(a, site) == IpBits(a) + own;
    WithIsJoin(ts, IpBits(a) + own);
  }

  // ---- Main results -----------------------------------------------------

  lemma NeutralParts(args: string) returns (ts: seq<string>)
    requires Neutral(args)
    ensures ts == Tokens(args) && AreTokens(ts) && Untouched(NFS_PATTERNS, ts) && Untouched(HTTP_PATTERNS, ts)
    ensures StripArgs(NFS_PATTERNS, args) == Join(" ", ts) && StripArgs(HTTP_PATTERNS, args) == Join(" ", ts)
    ensures StripArgs(NFS_PATTERNS, Join(" ", ts)) == Join(" ", ts)
    ensures StripArgs(HTTP_PATTERNS, Join(" ", ts)) == Join(" ", ts)
  {
    ts := Tokens(args);
    hide Untouched, Tokens, AreTokens, NFS_PATTERNS, HTTP_PATTERNS;
    KeptUntouched(NFS_PATTERNS, ts);
    KeptUntouched(HTTP_PATTERNS, ts);
    TokensOfJoin(ts);
  }

  /** Building does not depend on how the arguments are spaced. */
  lemma BuildSame(args: string, other: string, site: Site)
    requires StripArgs(NFS_PATTERNS, args) == StripArgs(NFS_PATTERNS, other)
    requires StripArgs(HTTP_PATTERNS, args) == StripArgs(HTTP_PATTERNS, other)
    ensures BuildNfs(args, site) == BuildNfs(other, site) && BuildHttp(args, site) == BuildHttp(other, site)
  {
    hide StripArgs, Holds, NfsBits, HttpBits, With;
  }

  /** The bits of a mode are the same with "ip=dhcp" among the arguments. */
  lemma BitsAside(ts: seq<string>, site: Site)
    requires AreTokens(ts)
    ensures
      var a, b := Join(" ", ts), Join(" ", ts + [IP_DHCP]);
      && IpBits(b) == [] && OptsBits(b, site) == OptsBits(a, site) && RootBits(b) == RootBits(a)
      && RamdiskBits(b, site) == RamdiskBits(a, site) && IsoBits(b, site) == IsoBits(a, site)
  {
    assert AreTokens(ts + [IP_DHCP]) by { FixedWords(); }
    Lengths();
    hide AnyHolds, Holds, AreTokens, IP_DHCP, NFSROOT, NFSOPTS, RAM0, RAMDISK, URL;
    IpAside(ts);
    JoinedBoth(Mentions(NFSOPTS.head), ts);
    JoinedBoth(Starts(RAMDISK.head), ts);
    JoinedBoth(Starts(URL.head), ts);
    JoinedBoth(Is(RAM0.text), ts);
    JoinedBoth(Starts("ip="), ts);
  }

  lemma JoinedBoth(g: Guard, ts: seq<string>)
    requires AreTokens(ts) && AreTokens(ts + [IP_DHCP])
    ensures Holds(g, Join(" ", ts)) <==> AnyHolds(g, ts)
    ensures Holds(g, Join(" ", ts + [IP_DHCP])) <==> AnyHolds(g, ts + [IP_DHCP])
  {
    hide AnyHolds, Holds, AreTokens, IP_DHCP;
    JoinedHolds(g, ts);
    JoinedHolds(g, ts + [IP_DHCP]);
  }

  /** The tokens of a mode, with the address if it was added. */
  function WithIp(ts: seq<string>, ip: bool): seq<string> { if ip then ts + [IP_DHCP] else ts }

  lemma WithIpKept(ts: seq<string>, ip: bool, ps: seq<Pattern>, gone: seq<string>)
    requires ps == NFS_PATTERNS || ps == HTTP_PATTERNS
    requires AreTokens(ts) && AreTokens(gone) && Untouched(ps, ts) && Removed(ps, gone)
    ensures AreTokens(WithIp(ts, ip)) && Untouched(ps, WithIp(ts, ip))
    ensures StripArgs(ps, Join(" ", WithIp(ts, ip) + gone)) == Join(" ", WithIp(ts, ip))
    ensures StripArgs(ps, Join(" ", WithIp(ts, ip))) == Join(" ", WithIp(ts, ip))
  {
    FixedWords();
    IpUntouched();
    assert AreTokens(ts + [IP_DHCP]);
    hide StripToken, AreTokens, IsToken, Untouched, Removed, NFS_PATTERNS, HTTP_PATTERNS, IP_DHCP;
    UntouchedConcat(ps, ts, [IP_DHCP]);
    StripNeutral(ps, WithIp(ts, ip), gone);
    assert WithIp(ts, ip) + [] == WithIp(ts, ip);
    StripNeutral(ps, WithIp(ts, ip), []) by { assert AreTokens([]) && Removed(ps, []); }
  }

  function HttpOwn(a: string, site: Site): seq<string> { RootBits(a) + RamdiskBits(a, site) + IsoBits(a, site) }

  function NfsOwn(a: string, site: Site): seq<string> { Fixed(site) + OptsBits(a, site) }

  lemma HttpIs(args: string, ts: seq<string>, site: Site)
    requires Neutral(args) && Recognised(site) && ts == Tokens(args)
    ensures
      var a := Join(" ", ts);
      BuildHttp(args, site) == Join(" ", WithIp(ts, IpBits(a) != []) + HttpOwn(a, site))
  {
    hide Neutral, Recognised, Tokens, StripArgs, BuildHttp, BuildNfs, Holds, RootBits, RamdiskBits, IsoBits, AreTokens;
    var parts := NeutralParts(args);
    var a := Join(" ", ts);
    BuildSame(args, a, site);
    HttpOfTokens(ts, site, a);
    if IpBits(a) == [] {
      assert [] + HttpOwn(a, site) == HttpOwn(a, site);
    } else {
      Assoc(ts, [IP_DHCP], HttpOwn(a, site));
    }
  }

  lemma NfsIs(args: string, ts: seq<string>, site: Site)
    requires Neutral(args) && Recognised(site) && ts == Tokens(args)
    ensures
      var a := Join(" ", ts);
      BuildNfs(args, site) ==
      if AnyHolds(Mentions(NFSROOT.head), ts) then a
      else Join(" ", WithIp(ts, IpBits(a) != []) + NfsOwn(a, site))
  {
    hide Neutral, Recognised, Tokens, StripArgs, BuildHttp, BuildNfs, Holds, OptsBits, Fixed, AreTokens, AnyHolds;
    var parts := NeutralParts(args);
    var a := Join(" ", ts);
    BuildSame(args, a, site);
    NfsOfTokens(ts, site, a);
    if IpBits(a) == [] {
      assert [] + NfsOwn(a, site) == NfsOwn(a, site);
    } else {
      Assoc(ts, [IP_DHCP], NfsOwn(a, site));
    }
  }

  /** Building only looks at what is left after stripping. */
  lemma NfsFrom(args: string, a: string, site: Site)
    requires StripArgs(HTTP_PATTERNS, args) == a && StripArgs(HTTP_PATTERNS, a) == a
    ensures BuildNfs(args, site) == BuildNfs(a, site)
  {
    hide StripArgs, Holds, NfsBits, With;
  }

  lemma HttpFrom(args: string, a: string, site: Site)
    requires StripArgs(NFS_PATTERNS, args) == a && StripArgs(NFS_PATTERNS, a) == a
    ensures BuildHttp(args, site) == BuildHttp(a, site)
  {
    hide StripArgs, Holds, HttpBits, With;
  }

  lemma IpDiffers(ts: seq<string>)
    requires AreTokens(ts)
    ensures Join(" ", ts + [IP_DHCP]) != Join(" ", ts)
  {
    assert AreTokens(ts + [IP_DHCP]) by { FixedWords(); }
    hide AreTokens, IP_DHCP;
    TokensOfJoin(ts);
    TokensOfJoin(ts + [IP_DHCP]);
  }

  lemma MentionsAside(ts: seq<string>, ip: bool)
    ensures AnyHolds(Mentions(NFSROOT.head), WithIp(ts, ip)) <==> AnyHolds(Mentions(NFSROOT.head), ts)
  {
    Lengths();
    hide AnyHolds, IP_DHCP, NFSROOT;
    IpAside(ts);
  }

  /** NFS arguments built over HTTP ones are those built directly, except when the arguments
      mention an NFS root in a token of another kind and set no address. */
  lemma SwitchToNfs(args: string, site: Site)
    requires Neutral(args) && Recognised(site)
    ensures BuildNfs(BuildHttp(args, site), site) == BuildNfs(args, site) <==>
            !AnyHolds(Mentions(NFSROOT.head), Tokens(args)) || AnyHolds(Starts("ip="), Tokens(args))
  {
    var ts := NeutralParts(args);
    var a := Join(" ", ts);
    var ip := IpBits(a) != [];
    assert ip <==> !AnyHolds(Starts("ip="), ts) by {
      JoinedHolds(Starts("ip="), ts);
      hide Holds, AnyHolds;
    }
    HttpBitsGo(a, site);
    hide Neutral, Recognised, Tokens, StripArgs, BuildHttp, BuildNfs, Holds, RootBits, RamdiskBits, IsoBits, AreTokens,
         AnyHolds, OptsBits, Fixed, IpBits, Untouched, Removed, NFS_PATTERNS, HTTP_PATTERNS, IP_DHCP;
    HttpIs(args, ts, site);
    NfsIs(args, ts, site);
    var w := WithIp(ts, ip);
    WithIpKept(ts, ip, HTTP_PATTERNS, HttpOwn(a, site));
    NfsFrom(BuildHttp(args, site), Join(" ", w), site);
    NfsOfTokens(w, site, Join(" ", w));
    MentionsAside(ts, ip);
    if ip {
      BitsAside(ts, site);
      IpDiffers(ts);
      assert [] + NfsOwn(a, site) == NfsOwn(a, site);
    } else {
      NfsOfTokens(ts, site, a);
      NfsFrom(args, a, site);
    }
  }

  /** HTTP arguments built over NFS ones are those built directly. */
  lemma SwitchToHttp(args: string, site: Site)
    requires Neutral(args) && Recognised(site)
    ensures BuildHttp(BuildNfs(args, site), site) == BuildHttp(args, site)
  {
    var ts := NeutralParts(args);
    var a := Join(" ", ts);
    var ip := IpBits(a) != [];
    NfsBitsGo(a, site);
    hide Neutral, Recognised, Tokens, StripArgs, BuildHttp, BuildNfs, Holds, RootBits, RamdiskBits, IsoBits, AreTokens,
         AnyHolds, OptsBits, Fixed, IpBits, Untouched, Removed, NFS_PATTERNS, HTTP_PATTERNS, IP_DHCP;
    HttpIs(args, ts, site);
    NfsIs(args, ts, site);
    if AnyHolds(Mentions(NFSROOT.head), ts) {
      HttpFrom(args, a, site);
    } else {
      var w := WithIp(ts, ip);
      WithIpKept(ts, ip, NFS_PATTERNS, NfsOwn(a, site));
      HttpFrom(BuildNfs(args, site), Join(" ", w), site);
      HttpOfTokens(w, site, Join(" ", w));
      if ip {
        BitsAside(ts, site);
        assert [] + HttpOwn(a, site) == HttpOwn(a, site);
      } else {
        HttpOfTokens(ts, site, a);
        HttpFrom(args, a, site);
      }
    }
  }

  // ---- When the conditions hold -----------------------------------------

  /** No match of p starts at j in h, whatever follows: a character disagrees, or there is no
      word boundary. */
  predicate MissesAt(p: Pattern, h: string, j: nat)
    requires j < |h| && |HeadOf(p)| >= 4
  {
    || h[j] != HeadOf(p)[0]
    || (j > 0 && IsWord(h[j - 1]))
    || (j + 1 < |h| && h[j + 1] != HeadOf(p)[1])
    || (j + 3 < |h| && h[j + 3] != HeadOf(p)[3])
  }

  predicate Misses(p: Pattern, h: string) {
    |HeadOf(p)| >= 4 && forall j :: 0 <= j < |h| ==> MissesAt(p, h, j)
  }

  lemma MatchChars(p: Pattern, t: string, i: nat)
    requires MatchAt(p, t, i) && |HeadOf(p)| >= 4
    ensures i + 3 < |t| && t[i] == HeadOf(p)[0] && t[i + 1] == HeadOf(p)[1] && t[i + 3] == HeadOf(p)[3]
    ensures i == 0 || !IsWord(t[i - 1])
  {
    var u := t[i..][..|HeadOf(p)|];
    assert u[0] == t[i] && u[1] == t[i + 1] && u[3] == t[i + 3];
  }

  lemma NoMatchInside(p: Pattern, h: string, t: string, j: nat)
    requires |HeadOf(p)| >= 4 && j < |h| && MissesAt(p, h, j) && StartsWith(t, h)
    ensures !MatchAt(p, t, j)
  {
    assert t[..|h|] == h;
    assert h[j] == t[j];
    assert j > 0 ==> h[j - 1] == t[j - 1];
    assert j + 1 < |h| ==> h[j + 1] == t[j + 1];
    assert j + 3 < |h| ==> h[j + 3] == t[j + 3];
    hide MatchAt;
    if MatchAt(p, t, j) { MatchChars(p, t, j); }
  }

  lemma MissKeeps(p: Pattern, h: string, t: string)
    requires Misses(p, h) && StartsWith(t, h)
    ensures StartsWith(Sub(p, t), h)
  {
    hide MatchAt, MissesAt;
    forall j | 0 <= j < |h| ensures !MatchAt(p, t, j) {
      assert MissesAt(p, h, j);
      NoMatchInside(p, h, t, j);
    }
    SubKeepsHead(p, t, |h|);
  }

  /** A token that starts with a pattern's head and one character more is removed, if no
      pattern before it can match that start. */
  lemma {:induction false} HeadGoes(ps: seq<Pattern>, k: nat, h: string, t: string)
    requires k < |ps| && ps[k].ToEnd? && ps[k].head != "" && |h| == |ps[k].head| + 1 && StartsWith(h, ps[k].head)
    requires StartsWith(t, h) && forall i :: 0 <= i < k ==> Misses(ps[i], h)
    ensures StripToken(ps, t) == ""
    decreases |ps|
  {
    if k == 0 {
      assert t[0..] == t && t[..|ps[0].head|] == h[..|ps[0].head|];
      SubWhole(ps[0], t);
      StripEmpty(ps[1..]);
    } else {
      assert Misses(ps[0], h);
      hide MatchAt, Misses, Sub, StartsWith;
      MissKeeps(ps[0], h, t);
      assert forall i :: 0 <= i < |ps[1..]| ==> ps[1..][i] == ps[i + 1];
      HeadGoes(ps[1..], k - 1, h, Sub(ps[0], t));
    }
  }

  /** A key whose characters are all word characters is missed by a pattern that starts
      differently, unless the value starts like the pattern. */
  lemma KeyMisses(p: Pattern, head: string, c: char)
    requires IsKey(head) && |HeadOf(p)| >= 4 && c != HeadOf(p)[0]
    requires head[0] != HeadOf(p)[0] || head[1] != HeadOf(p)[1] || head[3] != HeadOf(p)[3]
    ensures Misses(p, head + [c])
  {
    var h := head + [c];
    assert forall j :: 0 <= j < |head| ==> h[j] == head[j];
  }

  /** A key of at least three word characters with its equals sign. */
  predicate IsKey(head: string) {
    |head| >= 4 && forall j :: 0 <= j < |head| - 1 ==> IsWord(head[j])
  }

  lemma NfsKeys()
    ensures IsKey(NFSROOT.head) && IsKey(NFSOPTS.head)
  {
  }

  lemma HttpKeys()
    ensures IsKey(RAMDISK.head) && IsKey(URL.head)
  {
  }

  /** The characters that tell the keys apart. */
  lemma KeyChars()
    ensures CASPER.text[0] == 'b' && NETBOOT.text[0] == 'n' && NETBOOT.text[1] == 'e'
    ensures NFSROOT.head[0] == 'n' && NFSROOT.head[1] == 'f' && NFSROOT.head[3] == 'r'
    ensures NFSOPTS.head[0] == 'n' && NFSOPTS.head[1] == 'f' && NFSOPTS.head[3] == 'o'
    ensures RAM0.text[0] == 'r' && RAM0.text[1] == 'o' && RAMDISK.head[0] == 'r' && RAMDISK.head[1] == 'a'
    ensures URL.head[0] == 'u'
  {
  }

  /** Values as the server's settings hold them: an export that starts with an address, plain
      mount options, a number, an http URL, and no white space. */
  predicate IsUsual(site: Site) {
    && site.nfsRoot != "" && site.nfsRoot[0] !in "bn" && All(NotSpace, site.nfsRoot)
    && (site.nfsOpts != "" ==> site.nfsOpts[0] !in "bn") && All(NotSpace, site.nfsOpts)
    && site.ramdisk != "" && site.ramdisk[0] != 'r' && All(NotSpace, site.ramdisk)
    && (site.iso.Some? ==>
          site.iso.value != "" && site.iso.value[0] != 'r' && All(NotSpace, site.iso.value))
  }

  lemma HeadSplit(head: string, x: string)
    requires x != ""
    ensures StartsWith(head + x, head + [x[0]]) && StartsWith(head + [x[0]], head)
  {
    assert (head + x)[..|head| + 1] == head + [x[0]];
  }

  lemma HeadToken(head: string, x: string)
    requires IsToken(head) && All(NotSpace, x)
    ensures IsToken(head + x)
  {
    AllConcat(NotSpace, head, x);
  }

  lemma HeadsAreTokens()
    ensures IsToken(NFSROOT.head) && IsToken(NFSOPTS.head)
  {
  }

  lemma HttpHeadsAreTokens()
    ensures IsToken(RAMDISK.head) && IsToken(URL.head)
  {
  }

  lemma UsualNfs(x: string, opts: string)
    requires x != "" && x[0] != 'b' && x[0] != 'n' && (opts != "" ==> opts[0] != 'b' && opts[0] != 'n')
    ensures StripToken(NFS_PATTERNS, NFSROOT.head + x) == ""
    ensures opts != "" ==> StripToken(NFS_PATTERNS, NFSOPTS.head + opts) == ""
  {
    Lengths();
    KeyChars();
    NfsKeys();
    hide StripToken, Misses, CASPER, NETBOOT, NFSROOT, NFSOPTS, StartsWith, IsKey;
    KeyMisses(CASPER, NFSROOT.head, x[0]);
    KeyMisses(NETBOOT, NFSROOT.head, x[0]);
    HeadSplit(NFSROOT.head, x);
    HeadGoes(NFS_PATTERNS, 2, NFSROOT.head + [x[0]], NFSROOT.head + x);
    if opts != "" {
      KeyMisses(CASPER, NFSOPTS.head, opts[0]);
      KeyMisses(NETBOOT, NFSOPTS.head, opts[0]);
      KeyMisses(NFSROOT, NFSOPTS.head, opts[0]);
      HeadSplit(NFSOPTS.head, opts);
      HeadGoes(NFS_PATTERNS, 3, NFSOPTS.head + [opts[0]], NFSOPTS.head + opts);
    }
  }

  lemma UsualHttp(size: string, iso: string)
    requires size != "" && size[0] != 'r' && iso != "" && iso[0] != 'r'
    ensures StripToken(HTTP_PATTERNS, RAMDISK.head + size) == ""
    ensures StripToken(HTTP_PATTERNS, URL.head + iso) == ""
  {
    Lengths();
    KeyChars();
    HttpKeys();
    hide StripToken, Misses, RAM0, RAMDISK, URL, StartsWith, IsKey;
    KeyMisses(RAM0, RAMDISK.head, size[0]);
    HeadSplit(RAMDISK.head, size);
    HeadGoes(HTTP_PATTERNS, 1, RAMDISK.head + [size[0]], RAMDISK.head + size);
    KeyMisses(RAM0, URL.head, iso[0]);
    KeyMisses(RAMDISK, URL.head, iso[0]);
    HeadSplit(URL.head, iso);
    HeadGoes(HTTP_PATTERNS, 2, URL.head + [iso[0]], URL.head + iso);
  }

  /** The usual values are recognised by the patterns meant for them. */
  lemma UsualIsRecognised(site: Site)
    requires IsUsual(site)
    ensures Recognised(site)
  {
    assert site.nfsRoot[0] != 'b' && site.nfsRoot[0] != 'n';
    assert site.nfsOpts != "" ==> site.nfsOpts[0] != 'b' && site.nfsOpts[0] != 'n';
    Lengths();
    HeadsAreTokens();
    HttpHeadsAreTokens();
    hide StripToken, IsToken, All, NFSROOT, NFSOPTS, RAMDISK, URL, NFS_PATTERNS, HTTP_PATTERNS;
    HeadToken(NFSROOT.head, site.nfsRoot);
    HeadToken(NFSOPTS.head, site.nfsOpts);
    HeadToken(RAMDISK.head, site.ramdisk);
    UsualNfs(site.nfsRoot, site.nfsOpts);
    UsualHttp(site.ramdisk, if site.iso.Some? then site.iso.value else "h");
    if site.iso.Some? { HeadToken(URL.head, site.iso.value); }
  }
}
