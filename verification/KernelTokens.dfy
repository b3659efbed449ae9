/** The kernel arguments each system gets, token by token: what is added, where, and what is
    not added because a token of the administrator's is already there. */
module KernelTokens {
  import opened Text
  import opened Url
  import opened KernelArgs
  import opened StripTokens
  import opened UbuntuModes
  import opened KernelBuild

  // ---- What is there already --------------------------------------------

  /** A token starts with the text. */
  predicate Starting(ts: seq<string>, head: string) {
    exists i :: 0 <= i < |ts| && |head| <= |ts[i]| && ts[i][..|head|] == head
  }

  predicate At(t: string, k: nat, part: string) { k + |part| <= |t| && t[k..k + |part|] == part }

  predicate Inside(t: string, part: string) { exists k :: 0 <= k <= |t| && At(t, k, part) }

  /** A token has the text in it somewhere. */
  predicate Mentioning(ts: seq<string>, part: string) {
    exists i :: 0 <= i < |ts| && Inside(ts[i], part)
  }

  /** Added unless it is there. */
  function Missing(there: bool, bits: seq<string>): seq<string> { if there then [] else bits }

  lemma InsideMeans(t: string, part: string)
    ensures Contains(t, part) <==> Inside(t, part)
  {
    if i :| 0 <= i <= |t| && StartsWith(t[i..], part) {
      assert t[i..][..|part|] == t[i..i + |part|];
      assert At(t, i, part);
    }
    if k :| 0 <= k <= |t| && At(t, k, part) {
      assert t[k..][..|part|] == t[k..k + |part|];
      assert StartsWith(t[k..], part);
    }
  }

  lemma GuardMeans(ts: seq<string>, text: string)
    ensures AnyHolds(Starts(text), ts) <==> Starting(ts, text)
    ensures AnyHolds(Mentions(text), ts) <==> Mentioning(ts, text)
    ensures AnyHolds(Is(text), ts) <==> text in ts
  {
    hide Inside, Contains;
    forall i | 0 <= i < |ts| ensures Contains(ts[i], text) <==> Inside(ts[i], text) { InsideMeans(ts[i], text); }
    if AnyHolds(Starts(text), ts) {
      var i :| 0 <= i < |ts| && TokenHolds(Starts(text), ts[i]);
    }
    if Starting(ts, text) {
      var i :| 0 <= i < |ts| && |text| <= |ts[i]| && ts[i][..|text|] == text;
      assert TokenHolds(Starts(text), ts[i]);
    }
    if Mentioning(ts, text) {
      var i :| 0 <= i < |ts| && Inside(ts[i], text);
      assert TokenHolds(Mentions(text), ts[i]);
    }
    if text in ts {
      var i :| 0 <= i < |ts| && ts[i] == text;
      assert TokenHolds(Is(text), ts[i]);
    }
  }

  lemma StartingConcat(a: seq<string>, b: seq<string>, head: string)
    ensures Starting(a + b, head) <==> Starting(a, head) || Starting(b, head)
  {
    var all := a + b;
    if Starting(all, head) {
      var i :| 0 <= i < |all| && |head| <= |all[i]| && all[i][..|head|] == head;
      if i >= |a| { assert b[i - |a|] == all[i]; }
    }
    if Starting(a, head) {
      var i :| 0 <= i < |a| && |head| <= |a[i]| && a[i][..|head|] == head;
      assert all[i] == a[i];
    }
    if Starting(b, head) {
      var i :| 0 <= i < |b| && |head| <= |b[i]| && b[i][..|head|] == head;
      assert all[|a| + i] == b[i];
    }
  }

  /** A token with another character early on does not start with the text. */
  lemma NotStarting(t: string, head: string, k: nat)
    requires k < |t| && k < |head| && t[k] != head[k]
    ensures !Starting([t], head) && t != head
  {
    if |head| <= |t| { assert t[..|head|][k] == t[k]; }
  }

  // ---- One rule ---------------------------------------------------------

  lemma EnsureTokens(r: Rule, args: string)
    ensures
      Tokens(Ensure(r, args)) ==
      if AnyHolds(r.guard, Tokens(args)) then Tokens(args)
      else if r.front then Tokens(r.bits) + Tokens(args) else Tokens(args) + Tokens(r.bits)
  {
    hide Tokens, Added;
    AddedTokens(args, r.bits, r.front);
  }

  lemma SettingAdds(head: string, value: string, args: string)
    requires IsToken(head + value)
    ensures Tokens(Ensure(Setting(head, value), args)) ==
            Tokens(args) + Missing(Starting(Tokens(args), head), [head + value])
    ensures Tokens(Ensure(Mention(head, value), args)) ==
            Tokens(args) + Missing(Mentioning(Tokens(args), head), [head + value])
  {
    hide Ensure, Tokens, IsToken;
    EnsureTokens(Setting(head, value), args);
    EnsureTokens(Mention(head, value), args);
    GuardMeans(Tokens(args), head);
    TokensOfToken(head + value);
    assert Tokens(args) + [] == Tokens(args);
  }

  lemma FlagAdds(word: string, args: string)
    requires IsToken(word)
    ensures Tokens(Ensure(Flag(word), args)) == Tokens(args) + Missing(word in Tokens(args), [word])
  {
    hide Ensure, Tokens, IsToken;
    EnsureTokens(Flag(word), args);
    GuardMeans(Tokens(args), word);
    TokensOfToken(word);
    assert Tokens(args) + [] == Tokens(args);
  }

  lemma DhcpAdds(args: string)
    ensures Tokens(Ensure(DHCP, args)) == Missing(Starting(Tokens(args), "ip="), ["ip=dhcp"]) + Tokens(args)
  {
    DhcpIs();
    hide Ensure, Tokens, IsToken, DHCP, Starting;
    EnsureTokens(DHCP, args);
    GuardMeans(Tokens(args), "ip=");
    TokensOfToken("ip=dhcp");
    assert [] + Tokens(args) == Tokens(args);
  }

  lemma DhcpIs()
    ensures DHCP == Rule(Starts("ip="), "ip=dhcp", true) && IsToken("ip=dhcp")
  {
    assert "ip=" + "dhcp" == "ip=dhcp";
  }

  lemma HeadedToken(head: string, value: string)
    requires IsToken(head) && All(NotSpace, value)
    ensures IsToken(head + value)
  {
    hide All;
    AllConcat(NotSpace, head, value);
  }

  lemma InitrdAdds(e: Entry, args: string)
    requires All(NotSpace, e.initrd)
    ensures
      Tokens(Ensured(InitrdRules(e), args)) ==
      Tokens(args) + Missing(e.initrd == "" || Starting(Tokens(args), "initrd="), ["initrd=" + e.initrd])
  {
    NetHeads();
    hide Ensure, Tokens, IsToken, All, Setting;
    HeadedToken("initrd=", e.initrd);
    SettingAdds("initrd=", e.initrd, args);
    if e.initrd == "" {
      assert Tokens(args) + [] == Tokens(args);
    } else {
      EnsuredOne(Setting("initrd=", e.initrd), [], args);
      assert [Setting("initrd=", e.initrd)] + [] == [Setting("initrd=", e.initrd)];
    }
  }

  // ---- Debian -----------------------------------------------------------

  /** The values the server derives are one word each. */
  predicate OneWords(e: Entry) {
    && All(NotSpace, e.repo) && All(NotSpace, e.initrd) && All(NotSpace, e.root) && All(NotSpace, e.squash)
    && All(NotSpace, e.ramdisk) && (e.modloop.Some? ==> All(NotSpace, e.modloop.value))
  }

  lemma IpFirst(ts: seq<string>, there: bool, head: string)
    requires head != "" && head[0] == 'i' ==> |head| > 1 && head[1] != 'p'
    requires head != ""
    ensures Starting(Missing(there, ["ip=dhcp"]) + ts, head) <==> Starting(ts, head)
  {
    StartingConcat(Missing(there, ["ip=dhcp"]), ts, head);
    NotStarting("ip=dhcp", head, if head[0] == 'i' then 1 else 0);
  }

  lemma DebianTokens(e: Entry)
    requires OneWords(e)
    ensures
      var own := Tokens(e.args);
      Tokens(Built(Debian, e)) ==
      Missing(Starting(own, "ip="), ["ip=dhcp"])
      + own
      + Missing(e.initrd == "" || Starting(own, "initrd="), ["initrd=" + e.initrd])
  {
    var own := Tokens(e.args);
    hide Ensure, Tokens, All, DHCP, InitrdRules, Strip, Starting;
    var args := Ensure(DHCP, e.args);
    DhcpAdds(e.args);
    EnsuredOne(DHCP, InitrdRules(e), e.args);
    InitrdAdds(e, args);
    TokensStrip(Ensured(InitrdRules(e), args));
    IpFirst(own, Starting(own, "ip="), "initrd=");
  }

  // ---- Tokens that do not matter to a later guard -----------------------

  /** A token with another character early on changes nothing for a guard. */
  lemma LastApart(ts: seq<string>, there: bool, bit: string, head: string, k: nat)
    requires k < |bit| && k < |head| && bit[k] != head[k]
    ensures Starting(ts + Missing(there, [bit]), head) <==> Starting(ts, head)
    ensures head in ts + Missing(there, [bit]) <==> head in ts
  {
    hide Starting;
    StartingConcat(ts, Missing(there, [bit]), head);
    NotStarting(bit, head, k);
    NoneStarting(head);
  }

  lemma NoneStarting(head: string)
    ensures !Starting([], head)
  {
  }

  // ---- Alpine -----------------------------------------------------------

  lemma AlpineTokens(e: Entry)
    requires OneWords(e)
    ensures
      var own := Tokens(e.args);
      var withRepo := own + Missing(Mentioning(own, "alpine_repo="), ["alpine_repo=" + e.repo]);
      Tokens(Built(Alpine, e)) ==
      if e.modloop.None? then withRepo
      else withRepo + Missing(Mentioning(withRepo, "modloop="), ["modloop=" + e.modloop.value])
  {
    RepoHeads();
    hide Ensure, Tokens, All, Strip, Mentioning, Mention, IsToken;
    HeadedToken("alpine_repo=", e.repo);
    SettingAdds("alpine_repo=", e.repo, e.args);
    var args := Ensure(Mention("alpine_repo=", e.repo), e.args);
    if e.modloop.Some? {
      HeadedToken("modloop=", e.modloop.value);
      SettingAdds("modloop=", e.modloop.value, args);
    }
    AlpineSteps(e);
    TokensStrip(Ensured(AlpineRules(e), e.args));
  }

  lemma AlpineSteps(e: Entry)
    ensures
      var args := Ensure(Mention("alpine_repo=", e.repo), e.args);
      Ensured(AlpineRules(e), e.args) ==
      if e.modloop.None? then args else Ensure(Mention("modloop=", e.modloop.value), args)
  {
    hide Ensure, Mention;
    var first := Mention("alpine_repo=", e.repo);
    var args := Ensure(first, e.args);
    if e.modloop.Some? {
      var second := Mention("modloop=", e.modloop.value);
      EnsuredOne(first, [second] + [], e.args);
      EnsuredOne(second, [], args);
      assert [first] + ([second] + []) == AlpineRules(e);
    } else {
      EnsuredOne(first, [], e.args);
    }
  }

  // ---- Enterprise Linux and Fedora --------------------------------------

  /** What the two Anaconda families share: the arguments with the repository, then a token of
      their own, DHCP in front and the initrd at the end. */
  lemma AnacondaSteps(os: Os, e: Entry)
    requires os == Fedora || os == EnterpriseLinux
    ensures
      var args := Ensured(RepoRules(os, e), e.args);
      Built(os, e) == Strip(Ensured(InitrdRules(e), Ensure(DHCP, Ensure(NetRule(os), args))))
  {
    hide Ensure, DHCP, InitrdRules, RepoRules, NetRule, Strip;
    EnsuredConcat(RepoRules(os, e) + [NetRule(os), DHCP], InitrdRules(e), e.args);
    EnsuredConcat(RepoRules(os, e), [NetRule(os), DHCP], e.args);
    var args := Ensured(RepoRules(os, e), e.args);
    EnsuredOne(NetRule(os), [DHCP] + [], args);
    EnsuredOne(DHCP, [], Ensure(NetRule(os), args));
    assert [NetRule(os)] + ([DHCP] + []) == [NetRule(os), DHCP];
  }

  /** The tokens after the repository, when none of what was added starts with a later guard. */
  lemma AnacondaTail(e: Entry, net: string, own: seq<string>)
    requires All(NotSpace, e.initrd)
    ensures
      Tokens(Strip(Ensured(InitrdRules(e), Ensure(DHCP, net)))) ==
      Missing(Starting(Tokens(net), "ip="), ["ip=dhcp"])
      + Tokens(net)
      + Missing(e.initrd == "" || Starting(Tokens(net), "initrd="), ["initrd=" + e.initrd])
  {
    hide Ensure, Tokens, All, DHCP, InitrdRules, Strip, Starting;
    var args := Ensure(DHCP, net);
    DhcpAdds(net);
    InitrdAdds(e, args);
    TokensStrip(Ensured(InitrdRules(e), args));
    IpFirst(Tokens(net), Starting(Tokens(net), "ip="), "initrd=");
  }

  lemma RepoAdds(e: Entry)
    requires OneWords(e)
    ensures
      var own := Tokens(e.args);
      Tokens(Ensured(RepoRules(EnterpriseLinux, e), e.args)) ==
      own + Missing(e.root == "" || Mentioning(own, "inst.repo="), ["inst.repo=" + e.root])
  {
    RepoHeads();
    hide Ensure, Tokens, All, Mentioning, Mention, IsToken;
    HeadedToken("inst.repo=", e.root);
    SettingAdds("inst.repo=", e.root, e.args);
    var r := Mention("inst.repo=", e.root);
    EnsuredOne(r, [], e.args);
    assert [r] + [] == [r];
    assert Tokens(e.args) + [] == Tokens(e.args);
  }

  /** Rocky, AlmaLinux and CentOS: DHCP in front, the administrator's tokens, the repository, no
      certificate check, the initrd; each unless it is there. */
  lemma EnterpriseTokens(e: Entry)
    requires OneWords(e)
    ensures
      var own := Tokens(e.args);
      Tokens(Built(EnterpriseLinux, e)) ==
      Missing(Starting(own, "ip="), ["ip=dhcp"])
      + (own
         + Missing(e.root == "" || Mentioning(own, "inst.repo="), ["inst.repo=" + e.root])
         + Missing("inst.noverifyssl" in own, ["inst.noverifyssl"]))
      + Missing(e.initrd == "" || Starting(own, "initrd="), ["initrd=" + e.initrd])
  {
    var own := Tokens(e.args);
    var args := Ensured(RepoRules(EnterpriseLinux, e), e.args);
    NetHeads();
    hide Ensure, Tokens, All, DHCP, InitrdRules, RepoRules, Strip, Starting, Mentioning, IsToken, Built, Missing;
    AnacondaSteps(EnterpriseLinux, e);
    RepoAdds(e);
    FlagAdds("inst.noverifyssl", args);
    AnacondaTail(e, Ensure(Flag("inst.noverifyssl"), args), own);
    EnterpriseGuards(e, own);
  }

  lemma EnterpriseGuards(e: Entry, own: seq<string>)
    ensures
      var there := e.root == "" || Mentioning(own, "inst.repo=");
      var withRepo := own + Missing(there, ["inst.repo=" + e.root]);
      var all := withRepo + Missing("inst.noverifyssl" in own, ["inst.noverifyssl"]);
      && ("inst.noverifyssl" in withRepo <==> "inst.noverifyssl" in own)
      && (Starting(all, "ip=") <==> Starting(own, "ip="))
      && (Starting(all, "initrd=") <==> Starting(own, "initrd="))
  {
    var repo := "inst.repo=" + e.root;
    assert repo[1] == 'n' && repo[2] == 's' && repo[5] == 'r';
    hide Starting, Mentioning, Missing;
    var there := e.root == "" || Mentioning(own, "inst.repo=");
    var withRepo := own + Missing(there, [repo]);
    var ssl := "inst.noverifyssl" in own;
    LastApart(own, there, repo, "inst.noverifyssl", 5);
    LastApart(own, there, repo, "ip=", 1);
    LastApart(own, there, repo, "initrd=", 2);
    LastApart(withRepo, ssl, "inst.noverifyssl", "ip=", 1);
    LastApart(withRepo, ssl, "inst.noverifyssl", "initrd=", 2);
  }

  lemma NetAdds(args: string)
    ensures Tokens(Ensure(NetRule(Fedora), args)) ==
            Tokens(args) + Missing(Starting(Tokens(args), "rd.neednet="), ["rd.neednet=1"])
  {
    assert IsToken("rd.neednet=" + "1") && "rd.neednet=" + "1" == "rd.neednet=1";
    hide Ensure, Tokens, IsToken, Starting;
    SettingAdds("rd.neednet=", "1", args);
  }

  /** What a Fedora entry gets from its repository. */
  lemma FedoraRepoAdds(e: Entry)
    requires OneWords(e)
    ensures
      var own := Tokens(e.args);
      var live := own + Missing(Starting(own, "root=live:"), ["root=live:" + e.squash]);
      Tokens(Ensured(RepoRules(Fedora, e), e.args)) ==
      if e.root == "" || (e.live && e.squash == "") then own
      else if e.live then
        live + Missing("ro" in own, ["ro"]) + Missing(Mentioning(live, "rd.live.image"), ["rd.live.image"])
      else own + Missing(Starting(own, "inst.stage2="), ["inst.stage2=" + e.root])
  {
    RepoHeads();
    hide Ensure, Tokens, All, Mentioning, Starting, IsToken, LiveRules, Missing, Setting;
    if e.root != "" && e.live && e.squash != "" {
      LiveAdds(e);
    } else if e.root != "" && !e.live {
      HeadedToken("inst.stage2=", e.root);
      SettingAdds("inst.stage2=", e.root, e.args);
      var r := Setting("inst.stage2=", e.root);
      EnsuredOne(r, [], e.args);
      assert [r] + [] == [r];
    } else {
      NoRepoRules(e);
    }
  }

  lemma NoRepoRules(e: Entry)
    requires e.root == "" || (e.live && e.squash == "")
    ensures RepoRules(Fedora, e) == []
  {
  }

  lemma LiveAdds(e: Entry)
    requires OneWords(e) && e.squash != ""
    ensures
      var own := Tokens(e.args);
      var live := own + Missing(Starting(own, "root=live:"), ["root=live:" + e.squash]);
      Tokens(Ensured(LiveRules(e), e.args)) ==
      live + Missing("ro" in own, ["ro"]) + Missing(Mentioning(live, "rd.live.image"), ["rd.live.image"])
  {
    var own, root := Tokens(e.args), "root=live:" + e.squash;
    var live := own + Missing(Starting(own, "root=live:"), [root]);
    var a, b, c := Setting("root=live:", e.squash), Flag("ro"), Mention("rd.live.image", "");
    assert root[2] == 'o' && "ro" != root;
    assert "rd.live.image" + "" == "rd.live.image";
    LiveHeads();
    hide Ensure, Tokens, All, Mentioning, Starting, IsToken, Setting, Flag, Mention;
    EnsuredThree(a, b, c, e.args);
    HeadedToken("root=live:", e.squash);
    SettingAdds("root=live:", e.squash, e.args);
    FlagAdds("ro", Ensure(a, e.args));
    SettingAdds("rd.live.image", "", Ensure(b, Ensure(a, e.args)));
    RoMentionsNothing(live, "ro" in own);
  }

  lemma RoMentionsNothing(live: seq<string>, there: bool)
    ensures Mentioning(live + Missing(there, ["ro"]), "rd.live.image") <==> Mentioning(live, "rd.live.image")
  {
    var all := live + Missing(there, ["ro"]);
    assert |"rd.live.image"| == 13 && !Inside("ro", "rd.live.image");
    hide Inside;
    if Mentioning(all, "rd.live.image") {
      var i :| 0 <= i < |all| && Inside(all[i], "rd.live.image");
      assert i < |live| && all[i] == live[i];
    }
    if Mentioning(live, "rd.live.image") {
      var i :| 0 <= i < |live| && Inside(live[i], "rd.live.image");
      assert all[i] == live[i];
    }
  }

  /** What the repository of a Fedora release adds to tokens: the live image, or the second
      stage of the installer. */
  function FedoraRepo(e: Entry, own: seq<string>): seq<string> {
    var live := own + Missing(Starting(own, "root=live:"), ["root=live:" + e.squash]);
    if e.root == "" || (e.live && e.squash == "") then own
    else if e.live then
      live + Missing("ro" in own, ["ro"]) + Missing(Mentioning(live, "rd.live.image"), ["rd.live.image"])
    else own + Missing(Starting(own, "inst.stage2="), ["inst.stage2=" + e.root])
  }

  /** A later guard sees the administrator's tokens only. */
  lemma FedoraGuard(e: Entry, own: seq<string>, head: string)
    requires |head| > 3
    requires head[0] == 'r' ==> head[1] == 'd' && head[3] == 'n'
    requires head[0] == 'i' ==> head[2] != 's'
    ensures Starting(FedoraRepo(e, own), head) <==> Starting(own, head)
  {
    var root, stage := "root=live:" + e.squash, "inst.stage2=" + e.root;
    var live := own + Missing(Starting(own, "root=live:"), [root]);
    assert root[0] == 'r' && root[1] == 'o' && stage[0] == 'i' && stage[2] == 's';
    assert "rd.live.image"[0] == 'r' && "rd.live.image"[3] == 'l' && |"rd.live.image"| == 13;
    hide Starting, Mentioning, Missing;
    LastApart(own, Starting(own, "root=live:"), root, head, if head[0] == 'r' then 1 else 0);
    LastApart(live, "ro" in own, "ro", head, if head[0] == 'r' then 1 else 0);
    var withRo := live + Missing("ro" in own, ["ro"]);
    LastApart(withRo, Mentioning(live, "rd.live.image"), "rd.live.image", head, if head[0] == 'r' then 3 else 0);
    LastApart(own, Starting(own, "inst.stage2="), stage, head, if head[0] == 'i' then 2 else 0);
  }

  lemma FedoraIp(e: Entry, own: seq<string>)
    ensures Starting(FedoraRepo(e, own), "ip=") <==> Starting(own, "ip=")
  {
    var root, stage := "root=live:" + e.squash, "inst.stage2=" + e.root;
    var live := own + Missing(Starting(own, "root=live:"), [root]);
    assert root[0] == 'r' && stage[1] == 'n' && "rd.live.image"[0] == 'r';
    hide Starting, Mentioning, Missing;
    LastApart(own, Starting(own, "root=live:"), root, "ip=", 0);
    LastApart(live, "ro" in own, "ro", "ip=", 0);
    var withRo := live + Missing("ro" in own, ["ro"]);
    LastApart(withRo, Mentioning(live, "rd.live.image"), "rd.live.image", "ip=", 0);
    LastApart(own, Starting(own, "inst.stage2="), stage, "ip=", 1);
  }

  /** Fedora: DHCP in front, the administrator's tokens, the second stage or the live image, the
      network, the initrd; each unless it is there. */
  lemma FedoraTokens(e: Entry)
    requires OneWords(e)
    ensures
      var own := Tokens(e.args);
      var live := own + Missing(Starting(own, "root=live:"), ["root=live:" + e.squash]);
      var withRepo :=
        if e.root == "" || (e.live && e.squash == "") then own
        else if e.live then
          live + Missing("ro" in own, ["ro"]) + Missing(Mentioning(live, "rd.live.image"), ["rd.live.image"])
        else own + Missing(Starting(own, "inst.stage2="), ["inst.stage2=" + e.root]);
      Tokens(Built(Fedora, e)) ==
      Missing(Starting(own, "ip="), ["ip=dhcp"])
      + (withRepo + Missing(Starting(own, "rd.neednet="), ["rd.neednet=1"]))
      + Missing(e.initrd == "" || Starting(own, "initrd="), ["initrd=" + e.initrd])
  {
    hide Tokens, All, Starting, Mentioning, Missing, Built;
    FedoraBuilt(e);
  }

  lemma FedoraBuilt(e: Entry)
    requires OneWords(e)
    ensures
      var own := Tokens(e.args);
      Tokens(Built(Fedora, e)) ==
      Missing(Starting(own, "ip="), ["ip=dhcp"])
      + (FedoraRepo(e, own) + Missing(Starting(own, "rd.neednet="), ["rd.neednet=1"]))
      + Missing(e.initrd == "" || Starting(own, "initrd="), ["initrd=" + e.initrd])
  {
    var own := Tokens(e.args);
    var args := Ensured(RepoRules(Fedora, e), e.args);
    FedoraRepoAdds(e);
    assert Tokens(args) == FedoraRepo(e, own);
    hide Ensure, Tokens, All, DHCP, InitrdRules, RepoRules, NetRule, Strip, Starting, IsToken, Built, Missing,
         FedoraRepo;
    AnacondaSteps(Fedora, e);
    NetAdds(args);
    AnacondaTail(e, Ensure(NetRule(Fedora), args), own);
    FedoraGuards(e, own);
  }

  lemma FedoraGuards(e: Entry, own: seq<string>)
    ensures
      var all := FedoraRepo(e, own) + Missing(Starting(own, "rd.neednet="), ["rd.neednet=1"]);
      && (Starting(FedoraRepo(e, own), "rd.neednet=") <==> Starting(own, "rd.neednet="))
      && (Starting(all, "ip=") <==> Starting(own, "ip="))
      && (Starting(all, "initrd=") <==> Starting(own, "initrd="))
  {
    hide Starting, Missing, FedoraRepo;
    FedoraGuard(e, own, "rd.neednet=");
    FedoraGuard(e, own, "initrd=");
    FedoraIp(e, own);
    var withRepo, there := FedoraRepo(e, own), Starting(own, "rd.neednet=");
    LastApart(withRepo, there, "rd.neednet=1", "ip=", 0);
    LastApart(withRepo, there, "rd.neednet=1", "initrd=", 0);
  }

  // ---- Proxmox ----------------------------------------------------------

  lemma VgaAdds(args: string)
    ensures Tokens(Ensure(Setting("vga=", VGA_MODE + " " + VIDEO), args)) ==
            Tokens(args) + Missing(Starting(Tokens(args), "vga="), ["vga=791", "video=vesafb:ywrap,mtrr"])
  {
    VgaTokens();
    hide Ensure, Tokens, Starting, VGA_MODE, VIDEO;
    var r := Setting("vga=", VGA_MODE + " " + VIDEO);
    EnsureTokens(r, args);
    GuardMeans(Tokens(args), "vga=");
    assert Tokens(args) + [] == Tokens(args);
  }

  lemma VgaTokens()
    ensures Tokens("vga=" + (VGA_MODE + " " + VIDEO)) == ["vga=791", "video=vesafb:ywrap,mtrr"]
  {
    var ts := ["vga=791", "video=vesafb:ywrap,mtrr"];
    assert IsToken(ts[0]) && IsToken(ts[1]);
    assert Join(" ", ts) == ts[0] + " " + ts[1];
    assert "vga=" + (VGA_MODE + " " + VIDEO) == "vga=791" + " " + "video=vesafb:ywrap,mtrr";
    hide Tokens, IsToken, VGA_MODE, VIDEO, Join;
    TokensOfJoin(ts);
  }

  lemma SplashAdds(args: string)
    ensures Tokens(Ensure(Setting("splash=", "silent"), args)) ==
            Tokens(args) + Missing(Starting(Tokens(args), "splash="), ["splash=silent"])
  {
    assert IsToken("splash=" + "silent") && "splash=" + "silent" == "splash=silent";
    hide Ensure, Tokens, Starting, IsToken;
    SettingAdds("splash=", "silent", args);
  }

  lemma ProxmoxSteps(e: Entry, args: string)
    requires OneWords(e)
    ensures
      var own := Tokens(args);
      var screen := own + Missing(!e.vga || Starting(own, "vga="), ["vga=791", "video=vesafb:ywrap,mtrr"]);
      var front := Missing(Starting(screen, "ip="), ["ip=dhcp"]) + screen;
      var sized := front + Missing(Starting(front, "ramdisk_size="), ["ramdisk_size=" + e.ramdisk]);
      var writable := sized + Missing("rw" in sized, ["rw"]);
      var silent := writable + Missing("quiet" in writable, ["quiet"]);
      var all := silent + Missing(Starting(silent, "splash="), ["splash=silent"]);
      Tokens(Ensured(ProxmoxRules(e), args)) ==
      all + Missing(e.initrd == "" || Starting(all, "initrd="), ["initrd=" + e.initrd])
  {
    ProxmoxHeads();
    hide Ensure, Tokens, All, DHCP, InitrdRules, Starting, IsToken, Setting, Flag, ProxmoxRules, VGA_MODE, VIDEO;
    EnsuredMiddle(e, args);
    VgaAdds(args);
    var vga := if e.vga then Ensure(Setting("vga=", VGA_MODE + " " + VIDEO), args) else args;
    if !e.vga { assert Tokens(args) + [] == Tokens(args); }
    DhcpAdds(vga);
    HeadedToken("ramdisk_size=", e.ramdisk);
    SettingAdds("ramdisk_size=", e.ramdisk, Ensure(DHCP, vga));
    var sized := Ensure(Setting("ramdisk_size=", e.ramdisk), Ensure(DHCP, vga));
    FlagAdds("rw", sized);
    FlagAdds("quiet", Ensure(Flag("rw"), sized));
    var flagged := Ensure(Flag("quiet"), Ensure(Flag("rw"), sized));
    SplashAdds(flagged);
    InitrdAdds(e, Ensure(Setting("splash=", "silent"), flagged));
  }

  const SCREEN: seq<string> := ["vga=791", "video=vesafb:ywrap,mtrr"]

  /** Neither the screen nor DHCP matters to a later guard. */
  lemma ScreenApart(own: seq<string>, there: bool, dhcp: bool, head: string)
    requires head != "" && head[0] != 'v'
    ensures Starting(own + Missing(there, SCREEN), head) <==> Starting(own, head)
    ensures
      var all := Missing(dhcp, ["ip=dhcp"]) + (own + Missing(there, SCREEN));
      head[0] != 'i' ==> (Starting(all, head) <==> Starting(own, head)) && (head in all <==> head in own)
  {
    ScreenStarts(head);
    var screen := own + Missing(there, SCREEN);
    NoneStarting(head);
    hide Starting, SCREEN;
    StartingConcat(own, Missing(there, SCREEN), head);
    if head[0] != 'i' {
      NotStarting("ip=dhcp", head, 0);
      StartingConcat(Missing(dhcp, ["ip=dhcp"]), screen, head);
    }
  }

  lemma ScreenStarts(head: string)
    requires head != "" && head[0] != 'v'
    ensures !Starting(SCREEN, head) && head !in SCREEN
  {
    assert SCREEN[0][0] == 'v' && SCREEN[1][0] == 'v' && |SCREEN| == 2;
    hide SCREEN, Starting;
    NotStarting(SCREEN[0], head, 0);
    NotStarting(SCREEN[1], head, 0);
    StartingConcat([SCREEN[0]], [SCREEN[1]], head);
    assert SCREEN == [SCREEN[0]] + [SCREEN[1]];
  }

  /** What a Proxmox entry gets between the administrator's tokens and the initrd: every guard
      sees the administrator's tokens only. */
  lemma ProxmoxGuards(e: Entry, own: seq<string>)
    ensures
      var screen := own + Missing(!e.vga || Starting(own, "vga="), SCREEN);
      var front := Missing(Starting(own, "ip="), ["ip=dhcp"]) + screen;
      var sized := front + Missing(Starting(own, "ramdisk_size="), ["ramdisk_size=" + e.ramdisk]);
      var writable := sized + Missing("rw" in own, ["rw"]);
      var silent := writable + Missing("quiet" in own, ["quiet"]);
      && (Starting(screen, "ip=") <==> Starting(own, "ip="))
      && (Starting(front, "ramdisk_size=") <==> Starting(own, "ramdisk_size="))
      && ("rw" in sized <==> "rw" in own)
      && ("quiet" in writable <==> "quiet" in own)
      && (Starting(silent, "splash=") <==> Starting(own, "splash="))
  {
    var ram := "ramdisk_size=" + e.ramdisk;
    assert ram[0] == 'r' && ram[1] == 'a';
    hide Starting, Missing, SCREEN;
    var vga, dhcp := !e.vga || Starting(own, "vga="), Starting(own, "ip=");
    ScreenApart(own, vga, dhcp, "ip=");
    ScreenApart(own, vga, dhcp, "ramdisk_size=");
    ScreenApart(own, vga, dhcp, "rw");
    ScreenApart(own, vga, dhcp, "quiet");
    ScreenApart(own, vga, dhcp, "splash=");
    var front := Missing(dhcp, ["ip=dhcp"]) + (own + Missing(vga, SCREEN));
    var size := Starting(own, "ramdisk_size=");
    LastApart(front, size, ram, "rw", 1);
    LastApart(front, size, ram, "quiet", 0);
    LastApart(front, size, ram, "splash=", 0);
    var sized := front + Missing(size, [ram]);
    LastApart(sized, "rw" in own, "rw", "quiet", 0);
    LastApart(sized, "rw" in own, "rw", "splash=", 0);
    LastApart(sized + Missing("rw" in own, ["rw"]), "quiet" in own, "quiet", "splash=", 0);
  }

  /** Nor does any of them matter to the initrd. */
  lemma ProxmoxInitrd(e: Entry, own: seq<string>)
    ensures
      var screen := own + Missing(!e.vga || Starting(own, "vga="), SCREEN);
      var front := Missing(Starting(own, "ip="), ["ip=dhcp"]) + screen;
      var sized := front + Missing(Starting(own, "ramdisk_size="), ["ramdisk_size=" + e.ramdisk]);
      var silent := sized + Missing("rw" in own, ["rw"]) + Missing("quiet" in own, ["quiet"]);
      var all := silent + Missing(Starting(own, "splash="), ["splash=silent"]);
      Starting(all, "initrd=") <==> Starting(own, "initrd=")
  {
    var ram := "ramdisk_size=" + e.ramdisk;
    assert ram[0] == 'r';
    hide Starting, Missing, SCREEN;
    var vga, dhcp := !e.vga || Starting(own, "vga="), Starting(own, "ip=");
    var screen := own + Missing(vga, SCREEN);
    var front, size := Missing(dhcp, ["ip=dhcp"]) + screen, Starting(own, "ramdisk_size=");
    var sized := front + Missing(size, [ram]);
    var silent := sized + Missing("rw" in own, ["rw"]) + Missing("quiet" in own, ["quiet"]);
    ScreenApart(own, vga, dhcp, "initrd=");
    IpFirst(screen, dhcp, "initrd=");
    LastApart(front, size, ram, "initrd=", 0);
    LastApart(sized, "rw" in own, "rw", "initrd=", 0);
    LastApart(sized + Missing("rw" in own, ["rw"]), "quiet" in own, "quiet", "initrd=", 0);
    LastApart(silent, Starting(own, "splash="), "splash=silent", "initrd=", 0);
  }

  /** Proxmox: without the ISO's address, DHCP in front, the administrator's tokens, the screen,
      the RAM disk, write access, a quiet start, the initrd; each unless it is there. */
  lemma ProxmoxTokens(e: Entry)
    requires OneWords(e)
    ensures
      var own := Left(URL_PATTERNS, Tokens(e.args));
      Tokens(Built(Proxmox, e)) ==
      Missing(Starting(own, "ip="), ["ip=dhcp"])
      + (own + Missing(!e.vga || Starting(own, "vga="), ["vga=791", "video=vesafb:ywrap,mtrr"]))
      + Missing(Starting(own, "ramdisk_size="), ["ramdisk_size=" + e.ramdisk])
      + Missing("rw" in own, ["rw"])
      + Missing("quiet" in own, ["quiet"])
      + Missing(Starting(own, "splash="), ["splash=silent"])
      + Missing(e.initrd == "" || Starting(own, "initrd="), ["initrd=" + e.initrd])
  {
    var own := Left(URL_PATTERNS, Tokens(e.args));
    var args := StripArgs(URL_PATTERNS, e.args);
    assert SCREEN == ["vga=791", "video=vesafb:ywrap,mtrr"];
    hide Tokens, All, Starting, Missing, ProxmoxRules, StripArgs, Left, URL_PATTERNS, Strip, SCREEN, Ensured;
    StripArgsTokens(URL_PATTERNS, e.args);
    ProxmoxSteps(e, args);
    TokensStrip(Ensured(ProxmoxRules(e), args));
    ProxmoxGuards(e, own);
    ProxmoxInitrd(e, own);
  }

  /** The address of the ISO goes; a token that mentions none stays. */
  lemma UrlGoes(value: string, t: string)
    requires value != "" && !Inside(t, "url=")
    ensures StripToken(URL_PATTERNS, "url=" + value) == "" && StripToken(URL_PATTERNS, t) == t
  {
    var token := "url=" + value;
    assert URL == ToEnd("url=", true) && token[0..] == token && token[..4] == "url=";
    SubWhole(URL, token);
    forall i: nat ensures !MatchAt(URL, t, i) {
      if i <= |t| && StartsWith(t[i..], "url=") {
        assert t[i..][..4] == t[i..i + 4];
        assert At(t, i, "url=");
      }
    }
    SubPlain(URL, t);
    StripOne(URL, token);
    StripOne(URL, t);
  }

  // ---- The others -------------------------------------------------------

  /** ESXi, and every system without rules: the arguments without white space around them. */
  lemma PlainArgs(os: Os, e: Entry)
    requires os == Esxi || os == Other
    ensures Built(os, e) == Strip(e.args)
  {
    hide Strip;
  }

  // ---- Ubuntu -----------------------------------------------------------

  predicate OneWordSite(site: Site) {
    && All(NotSpace, site.nfsRoot) && All(NotSpace, site.nfsOpts) && All(NotSpace, site.ramdisk)
    && (site.iso.Some? ==> All(NotSpace, site.iso.value))
  }

  /** A pattern that begins with another letter than the token's head leaves the head alone. */
  lemma HeadKept(p: Pattern, head: string, rest: string)
    requires HeadOf(p) != "" && HeadOf(p)[0] !in head
    ensures |Sub(p, head + rest)| >= |head| && Sub(p, head + rest)[..|head|] == head
  {
    var t := head + rest;
    forall i: nat | i < |head| ensures !MatchAt(p, t, i) {
      assert t[i] == head[i];
      if MatchAt(p, t, i) { MatchHead(p, t, i); }
    }
    hide MatchAt, Sub;
    SubKeepsHead(p, t, |head|);
    assert t[..|head|] == head;
  }

  lemma Begins(t: string, i: nat, head: string, k: nat)
    requires i <= |t| && k < |head|
    ensures StartsWith(t[i..], head) ==> i + k < |t| && t[i + k] == head[k]
  {
    if StartsWith(t[i..], head) { assert t[i..][..|head|][k] == t[i..][k]; }
  }

  lemma UrlKept(head: string, rest: string)
    requires head == "ds=nocloud-net" || head == "ds=nocloud;"
    ensures |Sub(URL, head + rest)| >= |head| && Sub(URL, head + rest)[..|head|] == head
  {
    var t := head + rest;
    assert URL == ToEnd("url=", true);
    forall i: nat | i < |head| ensures !MatchAt(URL, t, i) {
      assert t[i] == head[i] && head[8] == 'u' && head[9] == 'd';
      assert t[9] == 'd';
      Begins(t, i, "url=", 0);
      Begins(t, i, "url=", 1);
    }
    hide MatchAt, Sub;
    SubKeepsHead(URL, t, |head|);
    assert t[..|head|] == head;
  }

  /** The token is still one that begins like this when its pattern comes. */
  lemma SeedLeft(head: string, v: string) returns (left: string)
    requires head == "ds=nocloud-net" || head == "ds=nocloud;"
    ensures Sub(URL, Sub(RAMDISK, Sub(RAM0, head + v))) == head + left
  {
    var n := |head|;
    assert RAM0 == Exact("root=/dev/ram0") && RAMDISK == ToEnd("ramdisk_size=", true) && 'r' !in head;
    hide Sub, MatchAt, RAM0, RAMDISK, URL;
    HeadKept(RAM0, head, v);
    var a := Sub(RAM0, head + v);
    Parted(a, n);
    HeadKept(RAMDISK, head, a[n..]);
    var b := Sub(RAMDISK, a);
    Parted(b, n);
    UrlKept(head, b[n..]);
    var c := Sub(URL, b);
    Parted(c, n);
    left := c[n..];
  }

  lemma HeadMatches(p: Pattern, left: string)
    requires p.ToEnd? && !p.some && p.head != ""
    ensures Sub(p, p.head + left) == ""
  {
    var t := p.head + left;
    assert t[0..] == t && t[..|p.head|] == p.head;
    SubWhole(p, t);
  }

  /** The seed's address, in either of its two forms, goes when the arguments are built for NFS. */
  lemma SeedGoes(v: string)
    ensures StripToken(HTTP_PATTERNS, "ds=nocloud-net" + v) == ""
    ensures StripToken(HTTP_PATTERNS, "ds=nocloud;" + v) == ""
  {
    var x := SeedLeft("ds=nocloud-net", v);
    var y := SeedLeft("ds=nocloud;", v);
    SeedPatterns();
    hide Sub, MatchAt, RAM0, RAMDISK, URL, NOCLOUD_NET, NOCLOUD, CLOUD_CONFIG, HTTP_PATTERNS;
    HeadMatches(NOCLOUD_NET, x);
    var z := OtherSeed(y);
    HeadMatches(NOCLOUD, z);
    SixPatterns("ds=nocloud-net" + v);
    SixPatterns("ds=nocloud;" + v);
    EmptyStripped();
  }

  lemma SeedPatterns()
    ensures NOCLOUD_NET == ToEnd("ds=nocloud-net", false) && NOCLOUD == ToEnd("ds=nocloud;", false)
  {
  }

  lemma SixPatterns(t: string)
    ensures StripToken(HTTP_PATTERNS, t) ==
            Sub(CLOUD_CONFIG, Sub(NOCLOUD, Sub(NOCLOUD_NET, Sub(URL, Sub(RAMDISK, Sub(RAM0, t))))))
  {
    hide Sub, RAM0, RAMDISK, URL, NOCLOUD_NET, NOCLOUD, CLOUD_CONFIG;
    var ps := HTTP_PATTERNS;
    assert ps[1..][0] == RAMDISK && ps[1..][1..] == ps[2..] && ps[2..][0] == URL && ps[2..][1..] == ps[3..];
    assert ps[3..][0] == NOCLOUD_NET && ps[3..][1..] == ps[4..] && ps[4..][0] == NOCLOUD && ps[4..][1..] == ps[5..];
    assert ps[5..][0] == CLOUD_CONFIG && ps[5..][1..] == [];
    var u := Sub(NOCLOUD_NET, Sub(URL, Sub(RAMDISK, Sub(RAM0, t))));
    assert StripToken(ps[4..], u) == Sub(CLOUD_CONFIG, Sub(NOCLOUD, u)) by {
      assert StripToken(ps[5..], Sub(NOCLOUD, u)) == StripToken([], Sub(CLOUD_CONFIG, Sub(NOCLOUD, u)));
    }
    assert StripToken(ps[2..], Sub(RAMDISK, Sub(RAM0, t))) == StripToken(ps[4..], u);
  }

  lemma EmptyStripped()
    ensures Sub(NOCLOUD, "") == "" && Sub(CLOUD_CONFIG, "") == ""
  {
    StripEmpty([NOCLOUD]);
    StripEmpty([CLOUD_CONFIG]);
    hide Sub, NOCLOUD, CLOUD_CONFIG;
    StripOne(NOCLOUD, "");
    StripOne(CLOUD_CONFIG, "");
  }

  /** The first form's pattern does not touch the second form. */
  lemma OtherSeed(left: string) returns (rest: string)
    ensures Sub(NOCLOUD_NET, "ds=nocloud;" + left) == "ds=nocloud;" + rest
  {
    var head := "ds=nocloud;";
    var t := head + left;
    SeedPatterns();
    assert |head| == 11 && t[..11] == head && t[10] == head[10] == ';';
    forall i: nat | i < 11 ensures !MatchAt(NOCLOUD_NET, t, i) {
      assert t[i] == head[i];
      Begins(t, i, "ds=nocloud-net", 0);
      Begins(t, i, "ds=nocloud-net", 1);
      Begins(t, i, "ds=nocloud-net", 10);
    }
    hide MatchAt, Sub;
    SubKeepsHead(NOCLOUD_NET, t, 11);
    rest := Sub(NOCLOUD_NET, t)[11..];
    Parted(Sub(NOCLOUD_NET, t), 11);
  }

  /** Ubuntu over HTTP: the administrator's tokens without those of NFS, then DHCP, the root and
      the size of the RAM disk, and the ISO; each unless it is there. */
  lemma HttpTokens(args: string, site: Site)
    requires OneWordSite(site)
    ensures
      var own := Left(NFS_PATTERNS, Tokens(args));
      Tokens(BuildHttp(args, site)) ==
      own
      + (Missing(Starting(own, "ip="), ["ip=dhcp"])
         + Missing("root=/dev/ram0" in own, ["root=/dev/ram0"])
         + Missing(Starting(own, "ramdisk_size="), ["ramdisk_size=" + site.ramdisk])
         + (if site.iso.None? then [] else Missing(Starting(own, "url="), ["url=" + site.iso.value])))
  {
    var own, a := Left(NFS_PATTERNS, Tokens(args)), StripArgs(NFS_PATTERNS, args);
    HttpBitsAre(a, site);
    hide Tokens, All, Starting, Missing, StripArgs, Left, NFS_PATTERNS, HttpBits, With;
    StripArgsTokens(NFS_PATTERNS, args);
    WithTokens(a, HttpBits(a, site));
  }

  /** Added bits that are one word each follow the tokens that are there. */
  lemma WithTokens(args: string, bits: seq<string>)
    requires AreTokens(bits)
    ensures Tokens(With(args, bits)) == Tokens(args) + bits
  {
    hide Tokens, Added, Strip, AreTokens;
    if bits == [] {
      TokensStrip(args);
    } else {
      AddedTokens(args, Join(" ", bits), false);
      TokensOfJoin(bits);
    }
  }

  lemma HttpBitsAre(args: string, site: Site)
    requires OneWordSite(site)
    ensures
      var own, bits := Tokens(args), HttpBits(args, site);
      && AreTokens(bits)
      && bits == Missing(Starting(own, "ip="), ["ip=dhcp"])
                 + Missing("root=/dev/ram0" in own, ["root=/dev/ram0"])
                 + Missing(Starting(own, "ramdisk_size="), ["ramdisk_size=" + site.ramdisk])
                 + (if site.iso.None? then [] else Missing(Starting(own, "url="), ["url=" + site.iso.value]))
  {
    var own := Tokens(args);
    HttpWords(site);
    hide Tokens, AnyHolds, Starting, IsToken, All;
    GuardMeans(own, "ip=");
    GuardMeans(own, "root=/dev/ram0");
    GuardMeans(own, "ramdisk_size=");
    GuardMeans(own, "url=");
  }

  lemma HttpWords(site: Site)
    requires OneWordSite(site)
    ensures IsToken("ip=dhcp") && IsToken("root=/dev/ram0") && IsToken("ramdisk_size=" + site.ramdisk)
    ensures site.iso.Some? ==> IsToken("url=" + site.iso.value)
  {
    assert IsToken("ramdisk_size=") && IsToken("url=") && IsToken("root=/dev/ram0") && IsToken("ip=dhcp");
    hide IsToken, All;
    HeadedToken("ramdisk_size=", site.ramdisk);
    if site.iso.Some? { HeadedToken("url=", site.iso.value); }
  }

  /** Ubuntu over NFS: the administrator's tokens without those of HTTP; and unless an NFS root is
      among them, DHCP if needed, the three NFS tokens, and the mount options if there are any and
      none are given. */
  lemma NfsTokens(args: string, site: Site)
    requires OneWordSite(site)
    ensures
      var own := Left(HTTP_PATTERNS, Tokens(args));
      Tokens(BuildNfs(args, site)) ==
      if Mentioning(own, "nfsroot=") then own
      else
        own
        + (Missing(Starting(own, "ip="), ["ip=dhcp"])
           + ["boot=casper", "netboot=nfs", "nfsroot=" + site.nfsRoot]
           + Missing(site.nfsOpts == "" || Mentioning(own, "nfsopts="), ["nfsopts=" + site.nfsOpts]))
  {
    var own, a := Left(HTTP_PATTERNS, Tokens(args)), StripArgs(HTTP_PATTERNS, args);
    NfsBitsAre(a, site);
    assert Holds(Mentions(NFSROOT.head), a) == AnyHolds(Mentions("nfsroot="), Tokens(a));
    hide Tokens, All, Starting, Mentioning, Missing, StripArgs, Left, HTTP_PATTERNS, NfsBits, With, Holds, AnyHolds,
         NFSROOT;
    StripArgsTokens(HTTP_PATTERNS, args);
    GuardMeans(own, "nfsroot=");
    WithTokens(a, NfsBits(a, site));
  }

  lemma NfsBitsAre(args: string, site: Site)
    requires OneWordSite(site)
    ensures
      var own, bits := Tokens(args), NfsBits(args, site);
      && AreTokens(bits)
      && bits == Missing(Starting(own, "ip="), ["ip=dhcp"])
                 + ["boot=casper", "netboot=nfs", "nfsroot=" + site.nfsRoot]
                 + Missing(site.nfsOpts == "" || Mentioning(own, "nfsopts="), ["nfsopts=" + site.nfsOpts])
  {
    var own := Tokens(args);
    NfsWords(site);
    hide Tokens, AnyHolds, Starting, IsToken, All, Mentioning;
    GuardMeans(own, "ip=");
    GuardMeans(own, "nfsopts=");
  }

  lemma NfsWords(site: Site)
    requires OneWordSite(site)
    ensures IsToken("ip=dhcp") && IsToken("boot=casper") && IsToken("netboot=nfs")
    ensures IsToken("nfsroot=" + site.nfsRoot) && IsToken("nfsopts=" + site.nfsOpts)
  {
    assert IsToken("nfsroot=") && IsToken("nfsopts=") && IsToken("ip=dhcp");
    CasperWords();
    assert CASPER.text == "boot=casper" && NETBOOT.text == "netboot=nfs";
    hide IsToken, All, CASPER, NETBOOT;
    HeadedToken("nfsroot=", site.nfsRoot);
    HeadedToken("nfsopts=", site.nfsOpts);
  }

  // ---- Entries without arguments of their own ---------------------------

  lemma NothingThere()
    ensures forall text :: !Starting([], text) && !Mentioning([], text)
    ensures Left(URL_PATTERNS, []) == []
  {
  }

  lemma Flat(a: string, b: string, c: string, d: string)
    ensures [a] + (([] + [b]) + [c]) + [d] == [a, b, c, d] && [a] + [] + [b] == [a, b]
  {
  }

  lemma FlatLive(a: string, b: string, c: string, d: string, e: string, f: string)
    ensures [a] + ((([] + [b]) + [c] + [d]) + [e]) + [f] == [a, b, c, d, e, f]
  {
  }

  lemma FlatScreen(a: string, b: string, c: string, d: string, e: string, f: string, g: string, h: string)
    ensures [a] + ([] + [b, c]) + [d] + [e] + [f] + [g] + [h] == [a, b, c, d, e, f, g, h]
  {
    assert [a] + ([] + [b, c]) == [a, b, c];
    assert [a, b, c] + [d] + [e] == [a, b, c, d, e];
  }

  lemma FreshDebian(e: Entry)
    requires OneWords(e) && Tokens(e.args) == [] && e.initrd != ""
    ensures Tokens(Built(Debian, e)) == ["ip=dhcp", "initrd=" + e.initrd]
  {
    NothingThere();
    hide Tokens, All, Starting, Built;
    DebianTokens(e);
    Flat("ip=dhcp", "initrd=" + e.initrd, "", "");
  }

  lemma FreshEnterprise(e: Entry)
    requires OneWords(e) && Tokens(e.args) == [] && e.initrd != "" && e.root != ""
    ensures Tokens(Built(EnterpriseLinux, e)) ==
            ["ip=dhcp", "inst.repo=" + e.root, "inst.noverifyssl", "initrd=" + e.initrd]
  {
    NothingThere();
    hide Tokens, All, Starting, Mentioning, Built, Left, URL_PATTERNS;
    EnterpriseTokens(e);
    Flat("ip=dhcp", "inst.repo=" + e.root, "inst.noverifyssl", "initrd=" + e.initrd);
  }

  lemma FreshFedora(e: Entry)
    requires OneWords(e) && Tokens(e.args) == [] && e.initrd != "" && e.root != "" && !e.live
    ensures Tokens(Built(Fedora, e)) ==
            ["ip=dhcp", "inst.stage2=" + e.root, "rd.neednet=1", "initrd=" + e.initrd]
  {
    NothingThere();
    hide Tokens, All, Starting, Mentioning, Built, Left, URL_PATTERNS;
    FedoraTokens(e);
    Flat("ip=dhcp", "inst.stage2=" + e.root, "rd.neednet=1", "initrd=" + e.initrd);
  }

  lemma FreshLive(e: Entry)
    requires OneWords(e) && Tokens(e.args) == [] && e.initrd != "" && e.root != "" && e.live && e.squash != ""
    requires !Inside("root=live:" + e.squash, "rd.live.image")
    ensures Tokens(Built(Fedora, e)) ==
            ["ip=dhcp", "root=live:" + e.squash, "ro", "rd.live.image", "rd.neednet=1", "initrd=" + e.initrd]
  {
    var root := ["root=live:" + e.squash];
    NothingThere();
    assert !Mentioning(root, "rd.live.image") by { hide Inside; }
    hide Tokens, All, Starting, Mentioning, Built, Inside, Left, URL_PATTERNS;
    FedoraTokens(e);
    FlatLive("ip=dhcp", root[0], "ro", "rd.live.image", "rd.neednet=1", "initrd=" + e.initrd);
  }

  lemma FreshAlpine(e: Entry)
    requires OneWords(e) && Tokens(e.args) == [] && e.modloop.Some?
    requires !Inside("alpine_repo=" + e.repo, "modloop=")
    ensures Tokens(Built(Alpine, e)) == ["alpine_repo=" + e.repo, "modloop=" + e.modloop.value]
  {
    var repo := ["alpine_repo=" + e.repo];
    NothingThere();
    assert !Mentioning(repo, "modloop=") by { hide Inside; }
    hide Tokens, All, Starting, Mentioning, Built, Inside;
    AlpineTokens(e);
    assert [] + repo == repo;
  }

  lemma FreshProxmox(e: Entry)
    requires OneWords(e) && Tokens(e.args) == [] && e.initrd != "" && e.vga
    ensures Tokens(Built(Proxmox, e)) ==
            ["ip=dhcp", "vga=791", "video=vesafb:ywrap,mtrr", "ramdisk_size=" + e.ramdisk, "rw", "quiet",
             "splash=silent", "initrd=" + e.initrd]
  {
    NothingThere();
    hide Tokens, All, Starting, Built, Left, URL_PATTERNS;
    ProxmoxTokens(e);
    FlatScreen("ip=dhcp", "vga=791", "video=vesafb:ywrap,mtrr", "ramdisk_size=" + e.ramdisk, "rw", "quiet",
               "splash=silent", "initrd=" + e.initrd);
  }
}
