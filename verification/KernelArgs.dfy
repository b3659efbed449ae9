/** Kernel arguments of the boot menus: each operating system adds what its installer needs
    unless the administrator's arguments already have it. */
module KernelArgs {
  import opened Text
  import opened Url

  // ---- Guards -----------------------------------------------------------

  /** What the builder looks for before it adds something: a token that contains a text, one
      that starts with it, or one that is it. */
  datatype Guard = Mentions(text: string) | Starts(text: string) | Is(text: string)

  predicate Contains(t: string, part: string) {
    exists i :: 0 <= i <= |t| && StartsWith(t[i..], part)
  }

  predicate TokenHolds(g: Guard, t: string) {
    match g
    case Mentions(part) => Contains(t, part)
    case Starts(head) => StartsWith(t, head)
    case Is(word) => t == word
  }

  predicate AnyHolds(g: Guard, ts: seq<string>) {
    exists i :: 0 <= i < |ts| && TokenHolds(g, ts[i])
  }

  predicate Holds(g: Guard, args: string) { AnyHolds(g, Tokens(args)) }

  /** Adds bits, in front or at the end, unless the guard holds. */
  datatype Rule = Rule(guard: Guard, bits: string, front: bool)

  function Added(args: string, bits: string, front: bool): string {
    if front then Strip(bits + " " + args) else Strip(args + " " + bits)
  }

  function Ensure(r: Rule, args: string): string {
    if Holds(r.guard, args) then args else Added(args, r.bits, r.front)
  }

  function Ensured(rules: seq<Rule>, args: string): string
    decreases |rules|
  {
    if rules == [] then args else Ensured(rules[1..], Ensure(rules[0], args))
  }

  // ---- The rules of each system -----------------------------------------

  datatype Os = Esxi | Alpine | Debian | Fedora | EnterpriseLinux | Proxmox | Other

  /** The boot entry: the stored arguments, and what the server derives for it (empty or None
      where there is nothing to add). */
  datatype Entry = Entry(
    args: string, repo: string, modloop: Option<string>, initrd: string, live: bool, root: string,
    squash: string, vga: bool, ramdisk: string)

  const VGA_MODE := "791"
  const VIDEO := "video=vesafb:ywrap,mtrr"

  const DHCP := Rule(Starts("ip="), "ip=" + "dhcp", true)

  /** `head` followed by a value, unless a token starts with it. */
  function Setting(head: string, value: string): Rule { Rule(Starts(head), head + value, false) }

  /** The same, unless it occurs anywhere. */
  function Mention(head: string, value: string): Rule { Rule(Mentions(head), head + value, false) }

  /** A word of its own. */
  function Flag(word: string): Rule { Rule(Is(word), word, false) }

  function InitrdRules(e: Entry): seq<Rule> {
    if e.initrd == "" then [] else [Setting("initrd=", e.initrd)]
  }

  function AlpineRules(e: Entry): seq<Rule> {
    [Mention("alpine_repo=", e.repo)]
    + if e.modloop.None? then [] else [Mention("modloop=", e.modloop.value)]
  }

  function LiveRules(e: Entry): seq<Rule> {
    if e.squash == "" then []
    else [Setting("root=live:", e.squash), Flag("ro"), Mention("rd.live.image", "")]
  }

  function RepoRules(os: Os, e: Entry): seq<Rule> {
    if e.root == "" then []
    else if os == Fedora && e.live then LiveRules(e)
    else if os == Fedora then [Setting("inst.stage2=", e.root)]
    else [Mention("inst.repo=", e.root)]
  }

  function NetRule(os: Os): Rule {
    if os == Fedora then Setting("rd.neednet=", "1") else Flag("inst.noverifyssl")
  }

  /** What a Proxmox entry gets before its initrd. */
  function ProxmoxBase(e: Entry): seq<Rule> {
    (if e.vga then [Setting("vga=", VGA_MODE + " " + VIDEO)] else [])
    + [DHCP, Setting("ramdisk_size=", e.ramdisk), Flag("rw"), Flag("quiet"), Setting("splash=", "silent")]
  }

  function ProxmoxRules(e: Entry): seq<Rule> { ProxmoxBase(e) + InitrdRules(e) }

  function RulesOf(os: Os, e: Entry): seq<Rule> {
    match os
    case Alpine => AlpineRules(e)
    case Debian => [DHCP] + InitrdRules(e)
    case Fedora => RepoRules(os, e) + [NetRule(os), DHCP] + InitrdRules(e)
    case EnterpriseLinux => RepoRules(os, e) + [NetRule(os), DHCP] + InitrdRules(e)
    case Proxmox => ProxmoxRules(e)
    case _ => []
  }

  // ---- What rules do ----------------------------------------------------

  /** Adding puts the tokens of the bits beside those of the arguments. */
  lemma AddedTokens(args: string, bits: string, front: bool)
    ensures Tokens(Added(args, bits, front)) ==
            if front then Tokens(bits) + Tokens(args) else Tokens(args) + Tokens(bits)
  {
    SpaceIsSpace();
    hide Tokens, All, Strip;
    var a, b := if front then bits else args, if front then args else bits;
    TokensStrip(a + " " + b);
    assert a + " " + b == a + (" " + b);
    TokensConcat(a, " " + b);
    TokensSkip(" ", b);
  }

  lemma AnyConcat(g: Guard, a: seq<string>, b: seq<string>)
    ensures AnyHolds(g, a + b) <==> AnyHolds(g, a) || AnyHolds(g, b)
  {
    hide TokenHolds;
    var all := a + b;
    assert forall i :: 0 <= i < |a| ==> all[i] == a[i];
    assert forall i :: 0 <= i < |b| ==> all[|a| + i] == b[i];
  }

  lemma AddedHolds(g: Guard, args: string, bits: string, front: bool)
    ensures Holds(g, Added(args, bits, front)) <==> Holds(g, args) || Holds(g, bits)
  {
    hide AnyHolds, Tokens, Added;
    AddedTokens(args, bits, front);
    AnyConcat(g, Tokens(args), Tokens(bits));
    AnyConcat(g, Tokens(bits), Tokens(args));
  }

  /** The bits of a rule satisfy its own guard. */
  predicate IsSound(r: Rule) { Holds(r.guard, r.bits) }

  predicate AreSound(rules: seq<Rule>) {
    forall i :: 0 <= i < |rules| ==> IsSound(rules[i])
  }

  /** A text that begins with a token gives a first token that begins with it. */
  lemma HeadHolds(head: string, rest: string)
    requires IsToken(head)
    ensures Holds(Starts(head), head + rest) && Holds(Mentions(head), head + rest)
  {
    var n := Span(NotSpace, rest);
    var word := head + rest[..n];
    AllConcat(NotSpace, head, rest[..n]);
    assert head + rest == word + rest[n..];
    assert n < |rest| ==> IsSpace(rest[n]);
    hide All;
    TokensHead(word, rest[n..]);
    var ts := Tokens(head + rest);
    assert ts[0] == word && word[..|head|] == head && word[0..] == word;
    assert TokenHolds(Starts(head), ts[0]) && TokenHolds(Mentions(head), ts[0]);
  }

  lemma WordHolds(word: string)
    requires IsToken(word)
    ensures Holds(Is(word), word)
  {
    TokensOfToken(word);
    assert TokenHolds(Is(word), Tokens(word)[0]);
  }

  /** The rules' guards all hold once the rules were applied, and keep holding. */
  lemma {:induction false} EnsuredHolds(rules: seq<Rule>, args: string, g: Guard)
    requires AreSound(rules)
    ensures Holds(g, args) ==> Holds(g, Ensured(rules, args))
    ensures forall i :: 0 <= i < |rules| && rules[i].guard == g ==> Holds(g, Ensured(rules, args))
    decreases |rules|
  {
    if rules != [] {
      assert IsSound(rules[0]);
      hide Holds, Added;
      AddedHolds(g, args, rules[0].bits, rules[0].front);
      assert AreSound(rules[1..]) by { SoundTail(rules); }
      EnsuredHolds(rules[1..], Ensure(rules[0], args), g);
      assert forall i :: 1 <= i < |rules| ==> rules[i] == rules[1..][i - 1];
    }
  }

  lemma SoundTail(rules: seq<Rule>)
    requires rules != [] && AreSound(rules)
    ensures AreSound(rules[1..])
  {
    hide IsSound;
  }

  /** Rules whose guards hold change nothing. */
  lemma {:induction false} EnsuredNothing(rules: seq<Rule>, args: string)
    requires forall i :: 0 <= i < |rules| ==> Holds(rules[i].guard, args)
    ensures Ensured(rules, args) == args
    decreases |rules|
  {
    if rules != [] {
      hide Holds, Added;
      assert Holds(rules[0].guard, args);
      assert forall i :: 0 <= i < |rules[1..]| ==> rules[1..][i] == rules[i + 1];
      EnsuredNothing(rules[1..], args);
    }
  }

  lemma StripHolds(g: Guard, args: string)
    ensures Holds(g, Strip(args)) <==> Holds(g, args)
  {
    hide AnyHolds, Tokens, Strip;
    TokensStrip(args);
  }

  lemma StripTwice(args: string)
    ensures Strip(Strip(args)) == Strip(args)
  {
    TrimIsBare(IsSpace, args);
    TrimBare(IsSpace, Strip(args));
  }

  /** Applying sound rules to their own result changes nothing. */
  lemma EnsuredTwice(rules: seq<Rule>, args: string)
    requires AreSound(rules)
    ensures Strip(Ensured(rules, Strip(Ensured(rules, args)))) == Strip(Ensured(rules, args))
  {
    var once := Ensured(rules, args);
    hide Ensured, Holds, Strip, IsSound;
    forall i | 0 <= i < |rules| ensures Holds(rules[i].guard, Strip(once)) {
      EnsuredHolds(rules, args, rules[i].guard);
      StripHolds(rules[i].guard, once);
    }
    EnsuredNothing(rules, Strip(once));
    StripTwice(once);
  }

  /** The given tokens stay, in order and together; the rules add before and after them. */
  lemma {:induction false} EnsuredKeeps(rules: seq<Rule>, args: string)
    returns (front: seq<string>, back: seq<string>)
    ensures Tokens(Ensured(rules, args)) == front + Tokens(args) + back
    decreases |rules|
  {
    hide Holds, Added, Tokens;
    if rules == [] {
      front, back := [], [];
      assert [] + Tokens(args) + [] == Tokens(args);
    } else {
      var r := rules[0];
      var f, b := EnsuredKeeps(rules[1..], Ensure(r, args));
      AddedTokens(args, r.bits, r.front);
      var ts, more := Tokens(args), Tokens(r.bits);
      if Holds(r.guard, args) {
        front, back := f, b;
      } else if r.front {
        front, back := f + more, b;
        assert f + (more + ts) + b == (f + more) + ts + b;
      } else {
        front, back := f, more + b;
        assert f + (ts + more) + b == f + ts + (more + b);
      }
    }
  }

  lemma SoundConcat(a: seq<Rule>, b: seq<Rule>)
    requires AreSound(a) && AreSound(b)
    ensures AreSound(a + b)
  {
    hide IsSound;
  }

  lemma SoundHead(head: string, value: string)
    requires IsToken(head)
    ensures IsSound(Setting(head, value)) && IsSound(Mention(head, value))
    ensures IsSound(Rule(Starts(head), head + value, true))
  {
    hide IsToken, Holds;
    HeadHolds(head, value);
  }

  lemma SoundFlag(word: string)
    requires IsToken(word)
    ensures IsSound(Flag(word))
  {
    hide IsToken, Holds;
    WordHolds(word);
  }

  lemma NetHeads()
    ensures IsToken("ip=") && IsToken("initrd=") && IsToken("rd.neednet=") && IsToken("inst.noverifyssl")
  {
  }

  lemma RepoHeads()
    ensures IsToken("alpine_repo=") && IsToken("modloop=") && IsToken("inst.stage2=")
    ensures IsToken("inst.repo=")
  {
  }

  lemma LiveHeads()
    ensures IsToken("root=live:") && IsToken("ro") && IsToken("rd.live.image")
  {
  }

  lemma ProxmoxHeads()
    ensures IsToken("vga=") && IsToken("ramdisk_size=") && IsToken("rw")
    ensures IsToken("quiet") && IsToken("splash=")
  {
  }

  lemma CommonSound(e: Entry)
    ensures IsSound(DHCP) && AreSound([DHCP]) && AreSound(InitrdRules(e))
  {
    NetHeads();
    hide IsToken, IsSound, Setting;
    SoundHead("ip=", "dhcp");
    SoundHead("initrd=", e.initrd);
  }

  lemma AlpineSound(e: Entry)
    ensures AreSound(AlpineRules(e))
  {
    RepoHeads();
    hide IsToken, IsSound, Mention;
    SoundHead("alpine_repo=", e.repo);
    if e.modloop.Some? { SoundHead("modloop=", e.modloop.value); }
  }

  lemma LiveSound(e: Entry)
    ensures AreSound(LiveRules(e))
  {
    LiveHeads();
    hide IsToken, IsSound, Mention, Setting, Flag;
    SoundHead("root=live:", e.squash);
    SoundFlag("ro");
    SoundHead("rd.live.image", "");
  }

  lemma RepoSound(os: Os, e: Entry)
    ensures AreSound(RepoRules(os, e)) && IsSound(NetRule(os))
  {
    RepoHeads();
    NetHeads();
    hide IsToken, IsSound, LiveRules, Mention, Setting, Flag;
    LiveSound(e);
    SoundHead("inst.stage2=", e.root);
    SoundHead("inst.repo=", e.root);
    SoundHead("rd.neednet=", "1");
    SoundFlag("inst.noverifyssl");
  }

  lemma ProxmoxSound(e: Entry)
    ensures AreSound(ProxmoxRules(e))
  {
    CommonSound(e);
    ProxmoxHeads();
    hide IsSound, InitrdRules, IsToken, Setting, Flag, DHCP;
    SoundHead("vga=", VGA_MODE + " " + VIDEO);
    SoundHead("ramdisk_size=", e.ramdisk);
    SoundFlag("rw");
    SoundFlag("quiet");
    SoundHead("splash=", "silent");
    var vga := if e.vga then [Setting("vga=", VGA_MODE + " " + VIDEO)] else [];
    var rest := [DHCP, Setting("ramdisk_size=", e.ramdisk), Flag("rw"), Flag("quiet"),
                 Setting("splash=", "silent")];
    SoundConcat(vga, rest);
    SoundConcat(vga + rest, InitrdRules(e));
  }

  lemma AnacondaSound(os: Os, e: Entry)
    ensures AreSound(RepoRules(os, e) + [NetRule(os), DHCP] + InitrdRules(e))
  {
    hide IsSound, InitrdRules, RepoRules, NetRule, DHCP;
    CommonSound(e);
    RepoSound(os, e);
    SoundConcat(RepoRules(os, e), [NetRule(os), DHCP]);
    SoundConcat(RepoRules(os, e) + [NetRule(os), DHCP], InitrdRules(e));
  }

  /** Every rule of every system satisfies its own guard. */
  lemma RulesAreSound(os: Os, e: Entry)
    ensures AreSound(RulesOf(os, e))
  {
    hide IsSound, InitrdRules, AlpineRules, RepoRules, NetRule, ProxmoxRules, DHCP;
    CommonSound(e);
    match os
    case Alpine => AlpineSound(e);
    case Debian => SoundConcat([DHCP], InitrdRules(e));
    case Proxmox => ProxmoxSound(e);
    case Fedora => AnacondaSound(os, e);
    case EnterpriseLinux => AnacondaSound(os, e);
    case _ =>
  }
}
