/** Building Proxmox arguments a second time: the `url=` tokens are removed first, so the name
    of the initrd decides. */
module ProxmoxLaws {
  import opened Text
  import opened Url
  import opened KernelArgs
  import opened StripTokens
  import opened UbuntuModes
  import opened UbuntuTwice
  import opened KernelBuild

  /** The bits a list of rules may add. */
  predicate BitsUntouched(rules: seq<Rule>) {
    forall i :: 0 <= i < |rules| ==> Untouched(URL_PATTERNS, Tokens(rules[i].bits))
  }

  lemma {:induction false} EnsuredUntouched(rules: seq<Rule>, args: string)
    requires BitsUntouched(rules) && Untouched(URL_PATTERNS, Tokens(args))
    ensures Untouched(URL_PATTERNS, Tokens(Ensured(rules, args)))
    decreases |rules|
  {
    if rules != [] {
      var r := rules[0];
      assert Untouched(URL_PATTERNS, Tokens(r.bits));
      assert BitsUntouched(rules[1..]);
      hide Untouched, Tokens, Added, Holds, URL_PATTERNS, BitsUntouched;
      AddedTokens(args, r.bits, r.front);
      UntouchedConcat(URL_PATTERNS, Tokens(args), Tokens(r.bits));
      UntouchedConcat(URL_PATTERNS, Tokens(r.bits), Tokens(args));
      EnsuredUntouched(rules[1..], Ensure(r, args));
    }
  }

  lemma {:induction false} StrippedIsJoin(args: string)
    requires Untouched(URL_PATTERNS, Tokens(args))
    ensures StripArgs(URL_PATTERNS, args) == Join(" ", Tokens(args))
  {
    hide Untouched, Tokens, URL_PATTERNS;
    KeptUntouched(URL_PATTERNS, Tokens(args));
  }

  /** One space between the tokens and none outside. */
  predicate IsSpaced(s: string) { s == Join(" ", Tokens(s)) }

  predicate BitsSpaced(rules: seq<Rule>) {
    forall i :: 0 <= i < |rules| ==> IsSpaced(rules[i].bits) && rules[i].bits != ""
  }

  lemma AddedSpaced(args: string, bits: string, front: bool)
    requires IsSpaced(args) && IsSpaced(bits)
    ensures IsSpaced(Added(args, bits, front))
  {
    var a, b := if front then Tokens(bits) else Tokens(args), if front then Tokens(args) else Tokens(bits);
    AddedTokens(args, bits, front);
    assert AreTokens(a) && AreTokens(b);
    hide Tokens, AreTokens, Strip, With;
    TwoSpaced(a, b);
  }

  lemma TwoSpaced(a: seq<string>, b: seq<string>)
    requires AreTokens(a) && AreTokens(b)
    ensures Strip(Join(" ", a) + " " + Join(" ", b)) == Join(" ", a + b)
  {
    hide AreTokens, Tokens, Strip;
    if b == [] {
      SpaceIsSpace();
      assert a + b == a && Join(" ", a) + " " + "" == Join(" ", a) + " ";
      hide All;
      StripRight(Join(" ", a), " ");
      JoinTrimmed(a);
    } else {
      WithIsJoin(a, b);
    }
  }

  lemma {:induction false} EnsuredSpaced(rules: seq<Rule>, args: string)
    requires BitsSpaced(rules) && IsSpaced(args)
    ensures IsSpaced(Ensured(rules, args))
    decreases |rules|
  {
    if rules != [] {
      var r := rules[0];
      assert IsSpaced(r.bits) && BitsSpaced(rules[1..]);
      hide IsSpaced, Added, Holds, BitsSpaced;
      AddedSpaced(args, r.bits, r.front);
      EnsuredSpaced(rules[1..], Ensure(r, args));
    }
  }

  /** The size of the RAM disk, a number in the settings, is a single token without `url=`. */
  predicate IsPlainSize(size: string) {
    All(NotSpace, size) && StripToken(URL_PATTERNS, "ramdisk_size=" + size) == "ramdisk_size=" + size
  }

  predicate IsFit(r: Rule) {
    IsSpaced(r.bits) && r.bits != "" && Untouched(URL_PATTERNS, Tokens(r.bits))
  }

  predicate AreFit(rules: seq<Rule>) { forall i :: 0 <= i < |rules| ==> IsFit(rules[i]) }

  lemma TokenFits(t: string)
    requires IsToken(t) && StripToken(URL_PATTERNS, t) == t
    ensures IsSpaced(t) && t != "" && Untouched(URL_PATTERNS, Tokens(t))
  {
    assert t != "";
    hide StripToken, IsToken, Tokens;
    TokensOfToken(t);
  }

  lemma HeadFits(head: string, value: string)
    requires IsToken(head) && All(NotSpace, value) && StripToken(URL_PATTERNS, head + value) == head + value
    ensures IsFit(Setting(head, value)) && IsFit(Rule(Starts(head), head + value, true))
  {
    hide StripToken, IsToken, Tokens, All;
    HeadToken(head, value);
    TokenFits(head + value);
  }

  lemma FlagFits(word: string)
    requires IsToken(word) && StripToken(URL_PATTERNS, word) == word
    ensures IsFit(Flag(word))
  {
    hide StripToken, IsToken, Tokens;
    TokenFits(word);
  }

  lemma NoUrl(t: string)
    requires 'u' !in t
    ensures StripToken(URL_PATTERNS, t) == t
  {
    FirstChars();
    Lengths();
    hide URL, MatchAt;
    FirstPlain(URL, t);
    StripPlain(URL_PATTERNS, t);
  }

  lemma QuietStays()
    ensures StripToken(URL_PATTERNS, "quiet") == "quiet" && IsToken("quiet")
  {
    var t := "quiet";
    assert URL.head[1] == 'r' && |URL.head| == 4 && t[0] == 'q' && t[1] == 'u' && t[2] == 'i' && |t| == 5;
    FirstChars();
    hide URL, MatchAt;
    forall i: nat ensures !MatchAt(URL, t, i) {
      if MatchAt(URL, t, i) { MatchChars(URL, t, i); }
    }
    StripPlain(URL_PATTERNS, t);
  }

  lemma FixedBits()
    ensures IsToken("rw") && All(NotSpace, "dhcp") && All(NotSpace, "silent")
    ensures 'u' !in "ip=" + "dhcp" && 'u' !in "rw" && 'u' !in "splash=" + "silent"
  {
  }

  lemma VgaWords()
    ensures All(NotSpace, VGA_MODE) && 'u' !in "vga=" + VGA_MODE
  {
  }

  lemma VideoWord()
    ensures IsToken(VIDEO) && 'u' !in VIDEO
  {
  }

  lemma VgaFits()
    ensures IsFit(Setting("vga=", VGA_MODE + " " + VIDEO))
  {
    ProxmoxHeads();
    VgaWords();
    VideoWord();
    var a := "vga=" + VGA_MODE;
    hide IsToken, StripToken, Tokens, All, VGA_MODE, VIDEO;
    HeadToken("vga=", VGA_MODE);
    NoUrl(a);
    NoUrl(VIDEO);
    TwoFit(a, VIDEO);
    assert "vga=" + (VGA_MODE + " " + VIDEO) == a + " " + VIDEO;
  }

  lemma TwoFit(a: string, b: string)
    requires IsToken(a) && IsToken(b) && StripToken(URL_PATTERNS, a) == a && StripToken(URL_PATTERNS, b) == b
    ensures IsSpaced(a + " " + b) && a + " " + b != "" && Untouched(URL_PATTERNS, Tokens(a + " " + b))
  {
    assert a != "" && b != "";
    hide StripToken, Tokens, IsToken, URL_PATTERNS;
    TwoTokens(a, b);
  }

  lemma FitConcat(a: seq<Rule>, b: seq<Rule>)
    requires AreFit(a) && AreFit(b)
    ensures AreFit(a + b)
  {
    hide IsFit;
  }

  lemma FlagsFit()
    ensures IsFit(DHCP) && IsFit(Flag("rw")) && IsFit(Flag("quiet")) && IsFit(Setting("splash=", "silent"))
  {
    FixedBits();
    NetHeads();
    ProxmoxHeads();
    QuietStays();
    hide IsToken, StripToken, IsFit, All, Setting, Flag;
    NoUrl("ip=" + "dhcp");
    NoUrl("rw");
    NoUrl("splash=" + "silent");
    HeadFits("ip=", "dhcp");
    FlagFits("rw");
    FlagFits("quiet");
    HeadFits("splash=", "silent");
  }

  lemma ProxmoxFits(e: Entry)
    requires IsPlainSize(e.ramdisk)
    ensures AreFit(ProxmoxBase(e))
  {
    NetHeads();
    ProxmoxHeads();
    hide IsToken, StripToken, IsFit, All, Setting, Flag, DHCP, VGA_MODE, VIDEO;
    HeadFits("ramdisk_size=", e.ramdisk);
    FlagsFit();
    VgaFits();
    var vga := if e.vga then [Setting("vga=", VGA_MODE + " " + VIDEO)] else [];
    var rest := [DHCP, Setting("ramdisk_size=", e.ramdisk), Flag("rw"), Flag("quiet"),
                 Setting("splash=", "silent")];
    FitConcat(vga, rest);
  }

  lemma FitBits(rules: seq<Rule>)
    requires AreFit(rules)
    ensures BitsSpaced(rules) && BitsUntouched(rules)
  {
    hide IsSpaced, Untouched, Tokens;
    forall i | 0 <= i < |rules|
      ensures IsSpaced(rules[i].bits) && rules[i].bits != "" && Untouched(URL_PATTERNS, Tokens(rules[i].bits))
    {
      assert IsFit(rules[i]);
    }
  }

  // ---- The initrd -------------------------------------------------------

  /** The builder appends the name of the initrd. */
  predicate AddsInitrd(e: Entry) {
    e.initrd != "" && !Holds(Starts("initrd="), StripArgs(URL_PATTERNS, e.args))
  }

  /** The name's words stand one space apart, and none of them holds a `url=`. */
  predicate InitrdSettles(name: string) {
    && Strip("initrd=" + name) == Join(" ", Tokens("initrd=" + name))
    && Untouched(URL_PATTERNS, Tokens("initrd=" + name))
  }

  /** Rules whose bits do not satisfy g leave it as it is. */
  lemma {:induction false} EnsuredOther(rules: seq<Rule>, args: string, g: Guard)
    requires forall i :: 0 <= i < |rules| ==> !Holds(g, rules[i].bits)
    ensures Holds(g, Ensured(rules, args)) <==> Holds(g, args)
    decreases |rules|
  {
    if rules != [] {
      hide Holds, Added;
      assert !Holds(g, rules[0].bits);
      AddedHolds(g, args, rules[0].bits, rules[0].front);
      assert forall i :: 0 <= i < |rules[1..]| ==> rules[1..][i] == rules[i + 1];
      EnsuredOther(rules[1..], Ensure(rules[0], args), g);
    }
  }

  lemma NotInitrd(head: string, rest: string)
    requires |head| >= 2 && (head[0] != 'i' || head[1] != 'n')
    ensures !StartsWith(head + rest, "initrd=")
  {
    var t := head + rest;
    assert t[0] == head[0] && t[1] == head[1];
    assert "initrd="[0] == 'i' && "initrd="[1] == 'n' && |"initrd="| == 7;
  }

  lemma OneWord(t: string)
    requires IsToken(t) && !StartsWith(t, "initrd=")
    ensures !Holds(Starts("initrd="), t)
  {
    TokensOfToken(t);
    hide Tokens, IsToken, StartsWith;
  }

  lemma TwoWords(a: string, b: string)
    requires IsToken(a) && IsToken(b) && !StartsWith(a, "initrd=") && !StartsWith(b, "initrd=")
    ensures !Holds(Starts("initrd="), a + " " + b)
  {
    hide Tokens, IsToken, StartsWith;
    TwoTokens(a, b);
  }

  lemma TwoTokens(a: string, b: string)
    requires IsToken(a) && IsToken(b)
    ensures Tokens(a + " " + b) == [a, b] && a + " " + b == Join(" ", [a, b])
  {
    assert AreTokens([a, b]);
    hide Tokens, IsToken, AreTokens;
    assert [a, b][1..] == [b];
    TokensOfJoin([a, b]);
  }

  lemma VgaNoInitrd()
    ensures !Holds(Starts("initrd="), "vga=" + (VGA_MODE + " " + VIDEO))
  {
    ProxmoxHeads();
    VgaWords();
    VideoWord();
    VideoHead();
    hide IsToken, Holds, All, VGA_MODE, VIDEO, StartsWith;
    HeadToken("vga=", VGA_MODE);
    NotInitrd("vga=", VGA_MODE);
    NotInitrd(VIDEO, "");
    assert VIDEO + "" == VIDEO;
    TwoWords("vga=" + VGA_MODE, VIDEO);
    assert "vga=" + (VGA_MODE + " " + VIDEO) == ("vga=" + VGA_MODE) + " " + VIDEO;
  }

  lemma VideoHead()
    ensures |VIDEO| >= 2 && VIDEO[0] == 'v'
  {
  }

  lemma FlagsNoInitrd()
    ensures !Holds(Starts("initrd="), "ip=" + "dhcp") && !Holds(Starts("initrd="), "rw")
    ensures !Holds(Starts("initrd="), "quiet") && !Holds(Starts("initrd="), "splash=" + "silent")
  {
    FixedBits();
    NetHeads();
    ProxmoxHeads();
    hide IsToken, Holds, All, StartsWith;
    HeadToken("ip=", "dhcp");
    HeadToken("splash=", "silent");
    NotInitrd("ip=", "dhcp");
    NotInitrd("rw", "");
    NotInitrd("quiet", "");
    NotInitrd("splash=", "silent");
    assert "rw" + "" == "rw" && "quiet" + "" == "quiet";
    OneWord("ip=" + "dhcp");
    OneWord("rw");
    OneWord("quiet");
    OneWord("splash=" + "silent");
  }

  /** Nothing a Proxmox entry gets before its initrd is taken for one. */
  lemma BaseNoInitrd(e: Entry)
    requires IsPlainSize(e.ramdisk)
    ensures forall i :: 0 <= i < |ProxmoxBase(e)| ==> !Holds(Starts("initrd="), ProxmoxBase(e)[i].bits)
  {
    ProxmoxHeads();
    VgaNoInitrd();
    FlagsNoInitrd();
    hide IsToken, Holds, All, StartsWith, VGA_MODE, VIDEO, StripToken;
    HeadToken("ramdisk_size=", e.ramdisk);
    NotInitrd("ramdisk_size=", e.ramdisk);
    OneWord("ramdisk_size=" + e.ramdisk);
  }

  lemma BaseSound(e: Entry)
    ensures AreSound(ProxmoxBase(e)) && AreSound(InitrdRules(e))
  {
    ProxmoxSound(e);
    CommonSound(e);
    hide IsSound, InitrdRules;
    var base, rules := ProxmoxBase(e), ProxmoxRules(e);
    assert forall i :: 0 <= i < |base| ==> base[i] == rules[i];
    assert forall i :: 0 <= i < |rules| ==> IsSound(rules[i]);
  }

  /** The arguments before the initrd. */
  function Base(e: Entry): string { Ensured(ProxmoxBase(e), StripArgs(URL_PATTERNS, e.args)) }

  predicate GuardsHold(rules: seq<Rule>, args: string) {
    forall i :: 0 <= i < |rules| ==> Holds(rules[i].guard, args)
  }

  /** They are in final form, and tell whether an initrd is added. */
  lemma BaseState(e: Entry)
    requires IsPlainSize(e.ramdisk)
    ensures IsSpaced(Base(e)) && Untouched(URL_PATTERNS, Tokens(Base(e)))
    ensures GuardsHold(ProxmoxBase(e), Base(e))
    ensures AddsInitrd(e) <==> e.initrd != "" && !Holds(Starts("initrd="), Base(e))
  {
    var rules, a := ProxmoxBase(e), StripArgs(URL_PATTERNS, e.args);
    StrippedUntouched(e.args);
    hide ProxmoxBase, Ensured, Strip, AreSound, AreFit, IsPlainSize, Untouched, Tokens, StripArgs, URL_PATTERNS,
         Holds, InitrdRules, IsSpaced;
    BaseSound(e);
    ProxmoxFits(e);
    FitBits(rules);
    StrippedSpaced(e.args);
    EnsuredSpaced(rules, a);
    EnsuredUntouched(rules, a);
    BaseNoInitrd(e);
    EnsuredOther(rules, a, Starts("initrd="));
    forall i | 0 <= i < |rules| ensures Holds(rules[i].guard, Base(e)) {
      EnsuredHolds(rules, a, rules[i].guard);
    }
  }

  lemma StrippedUntouched(args: string)
    ensures Untouched(URL_PATTERNS, Tokens(StripArgs(URL_PATTERNS, args)))
  {
    Lengths();
    assert URL.head != "";
    OnePattern();
    hide Tokens, Untouched, Left, URL_PATTERNS;
    KeptTwice(URL, Tokens(args));
    StripArgsTokens(URL_PATTERNS, args);
  }

  /** What is built, in terms of the arguments before the initrd. */
  lemma BuiltFromBase(e: Entry)
    requires IsPlainSize(e.ramdisk)
    ensures Built(Proxmox, e) ==
            if AddsInitrd(e) then Strip(Base(e) + " " + ("initrd=" + e.initrd)) else Base(e)
  {
    BaseState(e);
    hide ProxmoxBase, Strip, Untouched, StripArgs, URL_PATTERNS, Holds, IsSpaced, AddsInitrd;
    EnsuredConcat(ProxmoxBase(e), InitrdRules(e), StripArgs(URL_PATTERNS, e.args));
    SpacedStrip(Base(e));
    if e.initrd != "" {
      EnsuredOne(Setting("initrd=", e.initrd), [], Base(e));
      assert [Setting("initrd=", e.initrd)] + [] == [Setting("initrd=", e.initrd)];
      StripTwice(Base(e) + " " + ("initrd=" + e.initrd));
    }
  }

  /** Arguments in which every guard holds are only stripped by another build. */
  lemma BuiltOver(e: Entry, args: string)
    requires GuardsHold(ProxmoxBase(e), StripArgs(URL_PATTERNS, args))
    requires e.initrd != "" ==> Holds(Starts("initrd="), StripArgs(URL_PATTERNS, args))
    ensures Built(Proxmox, e.(args := args)) == StripArgs(URL_PATTERNS, args)
  {
    hide ProxmoxBase, Strip, StripArgs, URL_PATTERNS, Holds, Ensured;
    SameRules(Proxmox, e, args);
    var a := StripArgs(URL_PATTERNS, args);
    assert GuardsHold(ProxmoxRules(e), a);
    EnsuredNothing(ProxmoxRules(e), a);
    StripArgsTokens(URL_PATTERNS, args);
  }

  lemma OnePattern()
    ensures URL_PATTERNS == [URL]
  {
  }

  lemma StrippedSpaced(args: string)
    ensures IsSpaced(StripArgs(URL_PATTERNS, args))
  {
    hide Tokens, Strip, URL_PATTERNS;
    StripArgsTokens(URL_PATTERNS, args);
  }

  lemma SpacedStrip(s: string)
    requires IsSpaced(s)
    ensures Strip(s) == s
  {
    assert AreTokens(Tokens(s));
    hide Tokens, Strip, AreTokens;
    JoinTrimmed(Tokens(s));
  }

  // ---- Building twice ---------------------------------------------------

  lemma {:induction false} LeftHas(ps: seq<Pattern>, ts: seq<string>, i: nat) returns (k: nat)
    requires i < |ts| && StripToken(ps, ts[i]) != ""
    ensures k < |Left(ps, ts)| && Left(ps, ts)[k] == StripToken(ps, ts[i])
  {
    hide StripToken;
    if i == 0 {
      k := 0;
    } else {
      k := LeftHas(ps, ts[1..], i - 1);
      k := if StripToken(ps, ts[0]) == "" then k else k + 1;
    }
  }

  lemma InitrdMissed()
    ensures Misses(URL, "initrd=") && |"initrd="| == 7
  {
    FirstChars();
    Lengths();
    hide URL;
    assert 'u' !in "initrd=";
  }

  lemma InitrdStays(t: string)
    requires StartsWith(t, "initrd=")
    ensures StartsWith(StripToken(URL_PATTERNS, t), "initrd=") && StripToken(URL_PATTERNS, t) != ""
  {
    InitrdMissed();
    hide Misses, Sub, URL;
    StripOne(URL, t);
    MissKeeps(URL, "initrd=", t);
  }

  /** The appended name is still taken for an initrd once it was stripped. */
  lemma InitrdKept(name: string)
    ensures AnyHolds(Starts("initrd="), Left(URL_PATTERNS, Tokens("initrd=" + name)))
  {
    NetHeads();
    var ts := Tokens("initrd=" + name);
    hide Tokens, StartsWith, IsToken, StripToken, Left;
    HeadHolds("initrd=", name);
    var i: nat :| i < |ts| && StartsWith(ts[i], "initrd=");
    InitrdStays(ts[i]);
    var k := LeftHas(URL_PATTERNS, ts, i);
  }

  /** The arguments with the name appended, as text and as tokens. */
  lemma AppendedName(x: string, name: string)
    requires IsSpaced(x) && Tokens(x) != []
    ensures
      var bits := "initrd=" + name;
      var once := Strip(x + " " + bits);
      && Tokens(once) == Tokens(x) + Tokens(bits)
      && (once == Join(" ", Tokens(once)) <==> Strip(bits) == Join(" ", Tokens(bits)))
  {
    var bits := "initrd=" + name;
    var once := Strip(x + " " + bits);
    hide Tokens, Strip, IsSpaced;
    AddedTokens(x, bits, false);
    SpacedStrip(x);
    SpacedMeans(x);
    NameStripped(x, name);
    NameTokens(name);
    JoinConcat(Tokens(x), Tokens(bits));
    SameText(x + " ", Strip(bits), Join(" ", Tokens(bits)));
  }

  lemma SpacedMeans(x: string)
    requires IsSpaced(x) && Tokens(x) != []
    ensures x == Join(" ", Tokens(x)) && x != ""
  {
    TokensOfNothing();
  }

  lemma NameTokens(name: string)
    ensures Tokens("initrd=" + name) != []
  {
    NetHeads();
    hide Tokens, IsToken, StartsWith;
    HeadHolds("initrd=", name);
  }

  lemma NameStripped(x: string, name: string)
    requires Strip(x) == x && x != ""
    ensures Strip(x + " " + ("initrd=" + name)) == x + " " + Strip("initrd=" + name)
  {
    var bits := "initrd=" + name;
    var s := Strip(bits);
    TrimIsBare(IsSpace, x);
    TrimIsBare(IsSpace, bits);
    hide Trim, IsSpace, All, Bare;
    var b := NameSplit(name);
    StripRight(x + " " + s, b);
    assert x + " " + bits == (x + " " + s) + b;
    AppendedBare(x, s);
    TrimBare(IsSpace, x + " " + s);
  }

  lemma NameSplit(name: string) returns (b: string)
    ensures "initrd=" + name == Strip("initrd=" + name) + b && All(IsSpace, b) && Strip("initrd=" + name) != ""
  {
    var bits := "initrd=" + name;
    assert bits[0] == 'i' && !IsSpace(bits[0]);
    var a, c := TrimSplit(IsSpace, bits);
    b := c;
    hide Trim, IsSpace;
    NoLead(a, Strip(bits), b, bits);
    assert "" + Strip(bits) + b == Strip(bits) + b;
  }

  lemma NoLead(a: string, s: string, b: string, t: string)
    requires t == a + s + b && All(IsSpace, a) && All(IsSpace, b) && t != "" && !IsSpace(t[0])
    ensures a == "" && s != ""
  {
    hide IsSpace;
    assert (a + s + b)[0] == t[0];
  }

  lemma AppendedBare(x: string, s: string)
    requires Bare(IsSpace, x) && Bare(IsSpace, s) && x != "" && s != ""
    ensures Bare(IsSpace, x + " " + s)
  {
    var t := x + " " + s;
    assert t[0] == x[0] && t[|t| - 1] == s[|s| - 1];
  }

  /** A second build of arguments that got an initrd. */
  lemma SecondOver(e: Entry, x: string, once: string)
    requires GuardsHold(ProxmoxBase(e), x) && Untouched(URL_PATTERNS, Tokens(x))
    requires Tokens(once) == Tokens(x) + Tokens("initrd=" + e.initrd)
    ensures Built(Proxmox, e.(args := once)) ==
            Join(" ", Tokens(x) + Left(URL_PATTERNS, Tokens("initrd=" + e.initrd)))
  {
    var ts, name := Tokens(x), Tokens("initrd=" + e.initrd);
    var out := StripArgs(URL_PATTERNS, once);
    hide ProxmoxBase, Tokens, Left, Built, Untouched, URL_PATTERNS, AnyHolds, StripArgs;
    KeptConcat(URL_PATTERNS, ts, name);
    KeptUntouched(URL_PATTERNS, ts);
    StripArgsTokens(URL_PATTERNS, once);
    InitrdKept(e.initrd);
    AnyConcat(Starts("initrd="), ts, Left(URL_PATTERNS, name));
    forall i | 0 <= i < |ProxmoxBase(e)| ensures Holds(ProxmoxBase(e)[i].guard, out) {
      assert Holds(ProxmoxBase(e)[i].guard, x);
      AnyConcat(ProxmoxBase(e)[i].guard, ts, Left(URL_PATTERNS, name));
    }
    BuiltOver(e, once);
    JoinOfStripped(once);
  }

  lemma JoinOfStripped(args: string)
    ensures StripArgs(URL_PATTERNS, args) == Join(" ", Left(URL_PATTERNS, Tokens(args)))
  {
  }

  /** Stripping the appended name changes nothing exactly when its words are in final form. */
  lemma NameSettles(ts: seq<string>, name: string, once: string)
    requires AreTokens(ts) && Tokens(once) == ts + Tokens("initrd=" + name)
    requires once == Join(" ", Tokens(once)) <==>
             Strip("initrd=" + name) == Join(" ", Tokens("initrd=" + name))
    ensures Join(" ", ts + Left(URL_PATTERNS, Tokens("initrd=" + name))) == once <==> InitrdSettles(name)
  {
    var words := Tokens("initrd=" + name);
    var left := Left(URL_PATTERNS, words);
    KeptAreTokens(URL_PATTERNS, words);
    hide Tokens, Left, Untouched, URL_PATTERNS, Strip, AreTokens;
    TokensConcatenated(ts, left);
    TokensOfJoin(ts + left);
    LeftShorter(URL_PATTERNS, words);
    if Untouched(URL_PATTERNS, words) { KeptUntouched(URL_PATTERNS, words); }
    SameBack(ts, left, words);
  }

  lemma SameBack(a: seq<string>, b: seq<string>, c: seq<string>)
    ensures a + b == a + c <==> b == c
  {
    if a + b == a + c {
      assert b == (a + b)[|a|..] && c == (a + c)[|a|..];
    }
  }

  lemma BaseNotEmpty(e: Entry, x: string)
    requires GuardsHold(ProxmoxBase(e), x)
    ensures Tokens(x) != []
  {
    var n := |ProxmoxBase(e)|;
    hide Tokens, ProxmoxBase, TokenHolds;
    assert n > 0 by { BaseRules(e); }
    assert Holds(ProxmoxBase(e)[0].guard, x);
  }

  lemma BaseRules(e: Entry)
    ensures |ProxmoxBase(e)| > 0
  {
  }

  /** Building Proxmox arguments from Proxmox arguments changes nothing, exactly when the
      builder appends no initrd, or one whose name holds neither a `url=` nor loose spaces. */
  lemma ProxmoxTwice(e: Entry)
    requires IsPlainSize(e.ramdisk)
    ensures Built(Proxmox, e.(args := Built(Proxmox, e))) == Built(Proxmox, e) <==>
            (AddsInitrd(e) ==> InitrdSettles(e.initrd))
  {
    var x, once := Base(e), Built(Proxmox, e);
    hide ProxmoxBase, Untouched, Tokens, StripArgs, URL_PATTERNS, Holds, IsSpaced, Built, Base, AddsInitrd,
         GuardsHold, IsPlainSize, InitrdSettles, Strip;
    BaseState(e);
    BuiltFromBase(e);
    if AddsInitrd(e) {
      BaseNotEmpty(e, x);
      AppendedName(x, e.initrd);
      SecondOver(e, x, once);
      NameSettles(Tokens(x), e.initrd, once);
    } else {
      StrippedIsJoin(x);
      SpacedStays(x);
      AddedOrHeld(e);
      BuiltOver(e, x);
    }
  }

  lemma SpacedStays(x: string)
    requires IsSpaced(x)
    ensures x == Join(" ", Tokens(x))
  {
  }

  lemma AddedOrHeld(e: Entry)
    requires IsPlainSize(e.ramdisk) && !AddsInitrd(e)
    ensures e.initrd != "" ==> Holds(Starts("initrd="), Base(e))
  {
    hide ProxmoxBase, Untouched, Tokens, StripArgs, URL_PATTERNS, Holds, IsSpaced, Base, AddsInitrd,
         GuardsHold, IsPlainSize;
    BaseState(e);
  }

  /** A name with another argument in it. */
  const LOOSE := "a" + " " + "url=b"

  lemma LooseWords()
    ensures IsToken("initrd=a") && IsToken("url=b") && "initrd=" + LOOSE == "initrd=a" + " " + "url=b"
    ensures LOOSE != ""
  {
    assert "initrd=" + "a" == "initrd=a";
  }

  lemma UrlGoes()
    ensures StripToken(URL_PATTERNS, "url=b") == ""
  {
    assert URL.head == "url=" && |"url="| == 4;
    assert "url=b"[0..] == "url=b" && "url=b"[..4] == "url=";
    StripOne(URL, "url=b");
    SubWhole(URL, "url=b");
  }

  /** With such an initrd a second build takes away what the first one added. */
  lemma LooseNameDiffers(e: Entry)
    requires IsPlainSize(e.ramdisk) && e.initrd == LOOSE && Tokens(e.args) == []
    ensures Built(Proxmox, e.(args := Built(Proxmox, e))) != Built(Proxmox, e)
  {
    LooseWords();
    UrlGoes();
    hide Built, StripToken, URL_PATTERNS, IsPlainSize, LOOSE, IsToken, Tokens, TokenHolds;
    ProxmoxTwice(e);
    StripArgsTokens(URL_PATTERNS, e.args);
    TwoTokens("initrd=a", "url=b");
    assert Tokens("initrd=" + LOOSE)[1] == "url=b";
  }
}
