/** Building the kernel arguments of a boot entry, system by system. */
module KernelBuild {
  import opened Text
  import opened KernelArgs
  import opened StripTokens
  import opened UbuntuModes
  import opened UbuntuTwice

  const URL_PATTERNS: seq<Pattern> := [URL]

  /** The arguments the menu gives the kernel. */
  function Built(os: Os, e: Entry): string {
    if os == Proxmox then Strip(Ensured(ProxmoxRules(e), StripArgs(URL_PATTERNS, e.args)))
    else Strip(Ensured(RulesOf(os, e), e.args))
  }

  lemma EnsuredOne(r: Rule, rest: seq<Rule>, args: string)
    ensures Ensured([r] + rest, args) == Ensured(rest, Ensure(r, args))
  {
    hide Ensure;
    assert ([r] + rest)[1..] == rest;
  }

  lemma {:induction false} EnsuredConcat(a: seq<Rule>, b: seq<Rule>, args: string)
    ensures Ensured(a + b, args) == Ensured(b, Ensured(a, args))
    decreases |a|
  {
    hide Ensure;
    if a == [] {
      assert a + b == b;
    } else {
      assert (a + b)[1..] == a[1..] + b;
      EnsuredConcat(a[1..], b, Ensure(a[0], args));
    }
  }

  method EnsureRule(r: Rule, args: string) returns (out: string)
    ensures out == Ensure(r, args)
  {
    if Holds(r.guard, args) {
      return args;
    }
    out := if r.front then Strip(r.bits + " " + args) else Strip(args + " " + r.bits);
  }

  lemma EnsuredThree(a: Rule, b: Rule, c: Rule, args: string)
    ensures Ensured([a, b, c], args) == Ensure(c, Ensure(b, Ensure(a, args)))
  {
    hide Ensure;
    assert [a, b, c] == [a] + ([b] + ([c] + []));
    EnsuredOne(a, [b] + ([c] + []), args);
    EnsuredOne(b, [c] + [], Ensure(a, args));
    EnsuredOne(c, [], Ensure(b, Ensure(a, args)));
  }

  method AddInitrd(e: Entry, args: string) returns (out: string)
    ensures out == Ensured(InitrdRules(e), args)
  {
    hide Ensure;
    out := args;
    if e.initrd != "" {
      out := EnsureRule(Setting("initrd=", e.initrd), out);
    }
  }

  method AddRepo(os: Os, e: Entry, args: string) returns (out: string)
    ensures out == Ensured(RepoRules(os, e), args)
  {
    hide Ensure, Setting, Mention, Flag;
    out := args;
    if e.root != "" {
      if os == Fedora && e.live {
        if e.squash != "" {
          EnsuredThree(Setting("root=live:", e.squash), Flag("ro"), Mention("rd.live.image", ""), out);
          out := EnsureRule(Setting("root=live:", e.squash), out);
          out := EnsureRule(Flag("ro"), out);
          out := EnsureRule(Mention("rd.live.image", ""), out);
        }
      } else if os == Fedora {
        out := EnsureRule(Setting("inst.stage2=", e.root), out);
      } else {
        out := EnsureRule(Mention("inst.repo=", e.root), out);
      }
    }
  }

  /** The builder for every system but Ubuntu. */
  method BuildKernelArgs(os: Os, e: Entry) returns (args: string)
    ensures args == Built(os, e)
  {
    hide Ensure, Setting, Mention, Flag, DHCP, StripArgs, Strip, InitrdRules, RepoRules, NetRule, AlpineRules;
    args := e.args;
    match os {
      case Alpine =>
        args := AddAlpine(e, args);
      case Debian =>
        EnsuredOne(DHCP, InitrdRules(e), args);
        args := EnsureRule(DHCP, args);
        args := AddInitrd(e, args);
      case Fedora =>
        args := AddAnaconda(os, e, args);
      case EnterpriseLinux =>
        args := AddAnaconda(os, e, args);
      case Proxmox =>
        args := StripArgs(URL_PATTERNS, args);
        args := AddProxmox(e, args);
      case _ =>
    }
    args := Strip(args);
  }

  method AddAlpine(e: Entry, args: string) returns (out: string)
    ensures out == Ensured(AlpineRules(e), args)
  {
    hide Ensure, Mention;
    out := EnsureRule(Mention("alpine_repo=", e.repo), args);
    if e.modloop.Some? {
      EnsuredOne(Mention("alpine_repo=", e.repo), [Mention("modloop=", e.modloop.value)], args);
      out := EnsureRule(Mention("modloop=", e.modloop.value), out);
    }
  }

  method AddAnaconda(os: Os, e: Entry, args: string) returns (out: string)
    ensures out == Ensured(RepoRules(os, e) + [NetRule(os), DHCP] + InitrdRules(e), args)
  {
    hide Ensure, DHCP, InitrdRules, RepoRules, NetRule;
    EnsuredConcat(RepoRules(os, e) + [NetRule(os), DHCP], InitrdRules(e), args);
    EnsuredConcat(RepoRules(os, e), [NetRule(os), DHCP], args);
    out := AddRepo(os, e, args);
    EnsuredOne(NetRule(os), [DHCP], out);
    assert [NetRule(os)] + [DHCP] == [NetRule(os), DHCP];
    out := EnsureRule(NetRule(os), out);
    EnsuredOne(DHCP, [], out);
    assert [DHCP] + [] == [DHCP];
    out := EnsureRule(DHCP, out);
    out := AddInitrd(e, out);
  }

  /** The rules of a Proxmox entry between the screen and the initrd. */
  lemma EnsuredMiddle(e: Entry, args: string)
    ensures
      var vga := if e.vga then Ensure(Setting("vga=", VGA_MODE + " " + VIDEO), args) else args;
      var sized := Ensure(Setting("ramdisk_size=", e.ramdisk), Ensure(DHCP, vga));
      var flagged := Ensure(Flag("quiet"), Ensure(Flag("rw"), sized));
      Ensured(ProxmoxRules(e), args) ==
      Ensured(InitrdRules(e), Ensure(Setting("splash=", "silent"), flagged))
  {
    hide Ensure, Setting, Flag, DHCP, InitrdRules, VGA_MODE, VIDEO;
    var vga := if e.vga then [Setting("vga=", VGA_MODE + " " + VIDEO)] else [];
    var a, b, c := DHCP, Setting("ramdisk_size=", e.ramdisk), Flag("rw");
    var d, f := Flag("quiet"), Setting("splash=", "silent");
    assert [a, b, c, d, f] == [a, b, c] + ([d] + ([f] + []));
    EnsuredConcat(vga + [a, b, c, d, f], InitrdRules(e), args);
    EnsuredConcat(vga, [a, b, c, d, f], args);
    if e.vga { EnsuredOne(Setting("vga=", VGA_MODE + " " + VIDEO), [], args); assert vga + [] == vga; }
    var start := Ensured(vga, args);
    EnsuredConcat([a, b, c], [d] + ([f] + []), start);
    EnsuredThree(a, b, c, start);
    EnsuredOne(d, [f] + [], Ensured([a, b, c], start));
    EnsuredOne(f, [], Ensure(d, Ensured([a, b, c], start)));
  }

  method AddProxmox(e: Entry, args: string) returns (out: string)
    ensures out == Ensured(ProxmoxRules(e), args)
  {
    hide Ensure, Setting, Flag, DHCP, InitrdRules, ProxmoxRules, VGA_MODE, VIDEO;
    EnsuredMiddle(e, args);
    out := args;
    if e.vga {
      out := EnsureRule(Setting("vga=", VGA_MODE + " " + VIDEO), out);
    }
    out := EnsureRule(DHCP, out);
    out := EnsureRule(Setting("ramdisk_size=", e.ramdisk), out);
    out := EnsureRule(Flag("rw"), out);
    out := EnsureRule(Flag("quiet"), out);
    out := EnsureRule(Setting("splash=", "silent"), out);
    out := AddInitrd(e, out);
  }

  // ---- Laws -------------------------------------------------------------

  /** Building over the builder's own output changes nothing, on every system without token
      removal and for all arguments. */
  lemma BuiltTwice(os: Os, e: Entry)
    requires os != Proxmox
    ensures Built(os, e.(args := Built(os, e))) == Built(os, e)
  {
    RulesAreSound(os, e);
    assert RulesOf(os, e.(args := Built(os, e))) == RulesOf(os, e) by { SameRules(os, e, Built(os, e)); }
    hide RulesOf, Ensured, Strip, AreSound;
    EnsuredTwice(RulesOf(os, e), e.args);
  }

  lemma SameRules(os: Os, e: Entry, args: string)
    ensures RulesOf(os, e.(args := args)) == RulesOf(os, e)
    ensures ProxmoxRules(e.(args := args)) == ProxmoxRules(e)
    ensures ProxmoxBase(e.(args := args)) == ProxmoxBase(e)
  {
  }

  // ---- Every system -----------------------------------------------------

  /** A system of the menus: Ubuntu in one of its modes, or one built by rules. */
  datatype System = Ubuntu(nfs: bool, site: Site) | Ruled(os: Os)

  /** The arguments of a version, which may have no boot entry. */
  function MenuArgs(system: System, entry: Option<Entry>): string {
    match system
    case Ubuntu(nfs, site) => BuildUbuntu(if entry.Some? then entry.value.args else "", nfs, site)
    case Ruled(os) => if entry.Some? then Built(os, entry.value) else ""
  }

  method BuildMenuArgs(system: System, entry: Option<Entry>) returns (args: string)
    ensures args == MenuArgs(system, entry)
  {
    hide Built, BuildNfs, BuildHttp;
    args := if entry.Some? then entry.value.args else "";
    match system {
      case Ubuntu(nfs, site) =>
        args := BuildUbuntuArgs(args, nfs, site);
      case Ruled(os) =>
        if entry.Some? {
          args := BuildKernelArgs(os, entry.value);
        } else {
          args := "";
        }
    }
  }

  /** The administrator's tokens stay, in order and together. */
  lemma BuiltKeeps(os: Os, e: Entry) returns (front: seq<string>, back: seq<string>)
    ensures
      var own := if os == Proxmox then Left(URL_PATTERNS, Tokens(e.args)) else Tokens(e.args);
      Tokens(Built(os, e)) == front + own + back
  {
    hide Tokens, Ensured, Strip, RulesOf, ProxmoxRules, URL_PATTERNS, StripArgs;
    if os == Proxmox {
      StripArgsTokens(URL_PATTERNS, e.args);
      front, back := EnsuredKeeps(ProxmoxRules(e), StripArgs(URL_PATTERNS, e.args));
      TokensStrip(Ensured(ProxmoxRules(e), StripArgs(URL_PATTERNS, e.args)));
    } else {
      front, back := EnsuredKeeps(RulesOf(os, e), e.args);
      TokensStrip(Ensured(RulesOf(os, e), e.args));
    }
  }

  /** The patterns removed from the administrator's arguments. */
  function Removes(system: System): seq<Pattern> {
    match system
    case Ubuntu(nfs, _) => Foreign(nfs)
    case Ruled(os) => if os == Proxmox then URL_PATTERNS else []
  }

  lemma {:induction false} LeftOfNothing(ts: seq<string>)
    requires AreTokens(ts)
    ensures Left([], ts) == ts
  {
    if ts != [] {
      assert IsToken(ts[0]) && AreTokens(ts[1..]);
      LeftOfNothing(ts[1..]);
    }
  }

  /** On every system the administrator's tokens stay, in order and together, but for what the
      system's patterns remove. */
  lemma MenuKeeps(system: System, entry: Entry) returns (front: seq<string>, back: seq<string>)
    ensures Tokens(MenuArgs(system, Some(entry))) == front + Left(Removes(system), Tokens(entry.args)) + back
  {
    hide Tokens, Left, BuildUbuntu, Foreign, Built, AreTokens, URL_PATTERNS;
    match system
    case Ubuntu(nfs, site) =>
      back := UbuntuKeeps(entry.args, nfs, site);
      front := [];
      var left := Left(Foreign(nfs), Tokens(entry.args));
      assert [] + left == left;
    case Ruled(os) =>
      front, back := BuiltKeeps(os, entry);
      LeftOfNothing(Tokens(entry.args));
  }
}
