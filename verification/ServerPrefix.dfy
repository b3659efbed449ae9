/** The web address of an ESXi version, written by the extraction and by every menu refresh:
    both write the same one, and the parser finds it in the file. */
module ServerPrefix {
  import opened Text
  import opened KickstartLaws
  import opened Refresh
  import opened BootCfg
  import opened BootCfgLaws
  import opened RefreshMeans
  import opened LowerTree
  import opened Resolve
  import opened ResolveLaws
  import opened Publish
  import opened PublishFiles
  import opened PublishLaws
  import opened EsxiRuns

  // ---- The address ------------------------------------------------------

  predicate NoSlashEnd(s: string) { s != "" ==> s[|s| - 1] != '/' }

  lemma TrimSlashes(s: string, slashes: string)
    requires NoSlashEnd(s) && All(IsSlash, slashes)
    ensures TrimRight(IsSlash, s + slashes) == s
  {
    hide All;
    KeptOf(IsSlash, s, slashes);
  }

  /** The address both write, whatever slashes end the server's. */
  lemma AddressIs(server: string, slashes: string, folder: string)
    requires NoSlashEnd(server) && All(IsSlash, slashes)
    ensures MenuBase(server + slashes, folder) == server + "/boot/esxi/" + folder + "/"
  {
    hide All, TrimRight;
    TrimSlashes(server, slashes);
  }

  /** The address of a kickstart: the server, one slash, and the path without its own. */
  lemma KsUrlIs(server: string, slashes: string, more: string, path: string)
    requires NoSlashEnd(server) && All(IsSlash, slashes) && All(IsSlash, more)
    requires path != "" ==> path[0] != '/'
    ensures KsUrl(server + slashes, more + path) == server + "/" + path
  {
    hide All, TrimRight;
    TrimSlashes(server, slashes);
    SpanOf(IsSlash, more, path);
  }

  lemma Bases(slug: string, folder: string)
    requires slug == "esxi"
    ensures "/" + VersionBase(slug, folder) == "/boot/esxi/" + folder
  {
  }

  lemma Glue(a: string, b: string, c: string, d: string)
    requires "/" + b == "/boot/esxi/" + c
    ensures a + "/" + b + d == a + "/boot/esxi/" + c + d
  {
    assert a + "/" + b == a + ("/" + b);
    assert a + "/boot/esxi/" + c == a + ("/boot/esxi/" + c);
  }

  /** The extraction and the refresh write the same address for an ESXi version. */
  lemma WritersAgree(site: Site)
    requires site.slug == "esxi"
    ensures HttpPrefix(site) == MenuBase(site.server, site.folder)
  {
    hide VersionBase, TrimRight;
    Bases(site.slug, site.folder);
    Glue(TrimRight(IsSlash, site.server), VersionBase(site.slug, site.folder), site.folder, "/");
  }

  /** The rewriter leaves it as it is exactly when the folder has a name that ends in no slash. */
  lemma AddressStays(server: string, folder: string)
    ensures FullPrefix(MenuBase(server, folder)) == MenuBase(server, folder) <==>
            folder != "" && folder[|folder| - 1] != '/'
  {
    var front := TrimRight(IsSlash, server) + "/boot/esxi/" + folder;
    assert MenuBase(server, folder) == front + "/";
    assert front[|front| - 1] == if folder == "" then '/' else folder[|folder| - 1];
    assert IsSlash('/');
    assert All(IsSlash, "/");
    hide All, TrimRight, MenuBase;
    if front[|front| - 1] != '/' {
      TrimSlashes(front, "/");
    } else {
      TrimTwo(front);
    }
  }

  lemma TrimTwo(front: string)
    requires front != "" && front[|front| - 1] == '/'
    ensures |TrimRight(IsSlash, front + "/")| < |front|
  {
    var all := front + "/";
    assert all[..|all| - 1] == front;
  }

  lemma AddressIsPrefix(server: string, folder: string)
    requires OneLine(server) && OneLine(folder) && (server != "" ==> !IsSpace(server[0]))
    ensures IsHttpPrefix(MenuBase(server, folder))
  {
    var head := TrimRight(IsSlash, server);
    var base := MenuBase(server, folder);
    assert base[|base| - 1] == '/' && (head != "" ==> base[0] == head[0] == server[0]);
    assert head == "" ==> base[0] == '/';
    assert All(NotBreak, "/boot/esxi/") && All(NotBreak, "/");
    assert server == head + server[|head|..];
    hide All, TrimRight;
    AllConcat(NotBreak, head, server[|head|..]);
    AllConcat(NotBreak, head, "/boot/esxi/");
    AllConcat(NotBreak, head + "/boot/esxi/", folder);
    AllConcat(NotBreak, head + "/boot/esxi/" + folder, "/");
  }

  // ---- What the parser reads --------------------------------------------

  /** After a menu refresh the parser finds the address of the server and folder in both files. */
  lemma RefreshedMenus(v: Version, s: State, server: string)
    requires OneLine(server) && OneLine(v.folder) && (server != "" ==> !IsSpace(server[0]))
    ensures
      var after, base := Apply(v, s, Refresh(server)), MenuBase(server, v.folder);
      && after.active == s.active
      && (s.boot.Some? <==> after.boot.Some?)
      && (s.manual.Some? <==> after.manual.Some?)
      && (s.boot.Some? && StayWhole(SplitLines(s.boot.value)) ==> ReadsPrefix(after.boot.value, base))
      && (s.manual.Some? && StayWhole(SplitLines(s.manual.value)) ==> ReadsPrefix(after.manual.value, base))
  {
    hide MenuBase, IsHttpPrefix, ReadsPrefix, StayWhole, SplitLines, Refreshed, All;
    AddressIsPrefix(server, v.folder);
    if s.boot.Some? && StayWhole(SplitLines(s.boot.value)) {
      RefreshedPrefix(s.boot.value, MenuBase(server, v.folder));
    }
    if s.manual.Some? && StayWhole(SplitLines(s.manual.value)) {
      RefreshedPrefix(s.manual.value, MenuBase(server, v.folder));
    }
  }

  /** A freshly published boot.cfg carries the address; refreshing it for the same server leaves
      the address the parser finds. */
  lemma PublishedThenRefreshed(t: Tree, listing: seq<Path>, site: Site)
    requires GoodTree(t) && AllIn(t, listing) && site.slug == "esxi"
    requires OneLine(site.server) && (site.server != "" ==> !IsSpace(site.server[0]))
    requires OneLine(site.folder) && site.folder != "" && site.folder[|site.folder| - 1] != '/'
    requires PublishTree(t, listing, site).result.Ok?
    requires
      Pool(listing, BOOT_CFG) != [] && Pick(Pool(listing, BOOT_CFG)) in t ==>
        PlainCfg(t[Pick(Pool(listing, BOOT_CFG))].text)
    ensures
      var text, base := PublishTree(t, listing, site).result.value.text, MenuBase(site.server, site.folder);
      && ReadsPrefix(text, base)
      && (StayWhole(SplitLines(text)) ==> ReadsPrefix(Refreshed(text, base), base))
  {
    hide Pool, Pick, PublishTree, BOOT_CFG, GoodTree, AllIn, PlainCfg, MenuBase, IsHttpPrefix, FullPrefix, HttpPrefix,
         ReadsPrefix, StayWhole, SplitLines, Refreshed, All;
    WritersAgree(site);
    AddressStays(site.server, site.folder);
    AddressIsPrefix(site.server, site.folder);
    PublishedReads(t, listing, site);
    var text, base := PublishTree(t, listing, site).result.value.text, MenuBase(site.server, site.folder);
    if StayWhole(SplitLines(text)) { RefreshedPrefix(text, base); }
  }

  lemma PublishedReads(t: Tree, listing: seq<Path>, site: Site)
    requires GoodTree(t) && AllIn(t, listing) && IsHttpPrefix(FullPrefix(HttpPrefix(site)))
    requires PublishTree(t, listing, site).result.Ok?
    requires
      Pool(listing, BOOT_CFG) != [] && Pick(Pool(listing, BOOT_CFG)) in t ==>
        PlainCfg(t[Pick(Pool(listing, BOOT_CFG))].text)
    ensures ReadsPrefix(PublishTree(t, listing, site).result.value.text, FullPrefix(HttpPrefix(site)))
  {
    PublishedTree(t, listing, site);
    hide Pool, Pick, PublishTree, BOOT_CFG, GoodTree, AllIn, PlainCfg, IsHttpPrefix, FullPrefix, HttpPrefix,
         ReadsPrefix, IsPublished, HasLoader, IsFirstNamed, AllName, Names, Assignments, Keys, ModuleList, KERNEL,
         AUTO_CFG, MANUAL_CFG, WithAlias;
  }
}
