/** The files a publication leaves behind: which are new, which file each new name is, and
    which contents stay. */
module PublishFiles {
  import opened Text
  import opened LowerTree
  import opened Refresh
  import opened Resolve
  import opened ResolveLaws
  import opened Publish

  lemma NewNames()
    ensures AUTO_CFG == "ipxe-boot.cfg" && MANUAL_CFG == "ipxe-boot-manual.cfg" && MBOOT == "mboot.efi"
    ensures CRYPTO == "crypto64.efi" && BOOT_EFI == "bootx64.efi" && BOOT_CFG == "boot.cfg"
  {
  }

  /** The three new names and the alias are different from each other and from the loader. */
  lemma NamesDiffer()
    ensures [AUTO_CFG] != [MBOOT] && [MANUAL_CFG] != [MBOOT] && [AUTO_CFG] != [MANUAL_CFG]
    ensures [CRYPTO] != [MBOOT] && [CRYPTO] != [AUTO_CFG] && [CRYPTO] != [MANUAL_CFG]
    ensures Lower(MBOOT) != BOOT_EFI && BOOT_EFI != "" && BOOT_CFG != "" && CRYPTO != ""
  {
    assert |AUTO_CFG| == 13 && |MANUAL_CFG| == 20 && |MBOOT| == 9 && |CRYPTO| == 12 && |BOOT_EFI| == 11;
    assert [AUTO_CFG][0] == AUTO_CFG && [MANUAL_CFG][0] == MANUAL_CFG && [MBOOT][0] == MBOOT;
    assert [CRYPTO][0] == CRYPTO;
  }

  // ---- One file written -------------------------------------------------

  lemma WriteFrame(t: Tree, p: Path, text: string, inode: nat)
    ensures
      var w := WriteText(t, p, text, inode);
      && (forall q :: q in w <==> q in t || q == p)
      && (forall q :: q in t ==> w[q].inode == t[q].inode)
      && (forall q :: q in t && (p in t ==> t[q].inode != t[p].inode) ==> w[q] == t[q])
      && (forall q, r :: q in t && r in t && t[q] == t[r] ==> w[q] == w[r])
      && w[p].text == text
  {
  }

  // ---- The stages of a publication --------------------------------------

  /** The tree before the loader is linked. */
  function Written(t1: Tree, text: string, site: Site): Tree {
    WriteText(WriteText(t1, [AUTO_CFG], text, site.inodes.0), [MANUAL_CFG], text, site.inodes.1)
  }

  lemma PublishEnds(t: Tree, listing: seq<Path>, site: Site)
    requires PublishTree(t, listing, site).result.Ok?
    ensures
      var pub, efis := PublishTree(t, listing, site), Pool(listing, BOOT_EFI);
      var t3 := Written(WithAlias(t, listing), pub.result.value.text, site);
      efis != [] && Pick(efis) in t3 && pub.tree == t3[[MBOOT] := t3[Pick(efis)]]
  {
    hide Pool, Pick, PayloadOf, NormalizePaths, WithAlias, WriteText, IsDir, AUTO_CFG, MANUAL_CFG, MBOOT, BOOT_CFG,
         BOOT_EFI;
  }

  /** An existing boot file of a publication shares the contents of file q. */
  predicate Rewritten(t: Tree, q: Path)
    requires q in t
  {
    || ([AUTO_CFG] in t && t[q].inode == t[[AUTO_CFG]].inode)
    || ([MANUAL_CFG] in t && t[q].inode == t[[MANUAL_CFG]].inode)
  }

  /** Writing the two boot files adds their names and changes no other contents. */
  lemma WrittenFrame(t: Tree, text: string, site: Site)
    ensures
      var w := Written(t, text, site);
      && (forall q :: q in w <==> q in t || q == [AUTO_CFG] || q == [MANUAL_CFG])
      && (forall q :: q in t ==> w[q].inode == t[q].inode)
      && (forall q :: q in t && !Rewritten(t, q) ==> w[q] == t[q])
      && (forall q, r :: q in t && r in t && t[q] == t[r] ==> w[q] == w[r])
  {
    NamesDiffer();
    hide AUTO_CFG, MANUAL_CFG, MBOOT, CRYPTO, BOOT_EFI, BOOT_CFG, WriteText;
    var w := WriteText(t, [AUTO_CFG], text, site.inodes.0);
    WriteFrame(t, [AUTO_CFG], text, site.inodes.0);
    WriteFrame(w, [MANUAL_CFG], text, site.inodes.1);
  }

  /** The alias adds one name for the first crypto64.efi, and only where none is. */
  lemma AliasFrame(t: Tree, listing: seq<Path>)
    requires AllIn(t, listing)
    ensures
      var t1 := WithAlias(t, listing);
      && (forall q :: q in t ==> q in t1 && t1[q] == t[q])
      && (forall q :: q in t1 ==> q in t || q == [CRYPTO])
      && ([CRYPTO] in t1 && [CRYPTO] !in t ==>
            exists c :: c in t && IsFirstNamed(listing, CRYPTO, c) && t1[[CRYPTO]] == t[c])
      && (AnyNamed(listing, CRYPTO) ==> Exists(t1, [CRYPTO]))
  {
    NamesDiffer();
    hide Pool, Pick, IsFirstNamed, AnyNamed, IsDir, CRYPTO;
    PickIsFirstNamed(listing, CRYPTO);
    var t1 := WithAlias(t, listing);
    if CryptoOf(listing).Some? {
      var c := CryptoOf(listing).value;
      assert IsFirstNamed(listing, CRYPTO, c);
      FirstNamedIn(t, listing, CRYPTO, c);
      if [CRYPTO] !in t && [CRYPTO] in t1 { assert t1[[CRYPTO]] == t[c]; }
    }
  }

  lemma FirstNamedIn(t: Tree, listing: seq<Path>, name: string, p: Path)
    requires AllIn(t, listing) && IsFirstNamed(listing, name, p)
    ensures p in t
  {
  }

  /** The crypto64.efi of the image is the first one of that name, if there is any. */
  lemma CryptoIsFirst(listing: seq<Path>)
    ensures CryptoOf(listing).Some? <==> AnyNamed(listing, "crypto64.efi")
    ensures CryptoOf(listing).Some? ==> IsFirstNamed(listing, "crypto64.efi", CryptoOf(listing).value)
  {
    NewNames();
    NamesDiffer();
    hide Pool, Pick, IsFirstNamed, AnyNamed, CRYPTO;
    PickIsFirstNamed(listing, CRYPTO);
  }

  // ---- What is left behind ----------------------------------------------

  /** `mboot.efi` is the very file of the first bootx64.efi: no other is shallower. */
  ghost predicate HasLoader(t: Tree, listing: seq<Path>, tree: Tree) {
    && ["mboot.efi"] in tree
    && exists p :: IsFirstNamed(listing, "bootx64.efi", p) && p in t && p in tree
                && tree[["mboot.efi"]] == tree[p] && tree[p].inode == t[p].inode
                && (!Rewritten(t, p) ==> tree[p] == t[p])
  }

  lemma LoaderIsLinked(t: Tree, listing: seq<Path>, site: Site)
    requires AllIn(t, listing) && PublishTree(t, listing, site).result.Ok?
    ensures HasLoader(t, listing, PublishTree(t, listing, site).tree)
  {
    NewNames();
    NamesDiffer();
    hide Pool, Pick, IsFirstNamed, AnyNamed, CRYPTO, WithAlias, AUTO_CFG, MANUAL_CFG, MBOOT, BOOT_EFI, BOOT_CFG,
         PublishTree, Written, Rewritten;
    var pub := PublishTree(t, listing, site);
    PublishEnds(t, listing, site);
    PickIsFirstNamed(listing, BOOT_EFI);
    var p := Pick(Pool(listing, BOOT_EFI));
    FirstNamedIn(t, listing, BOOT_EFI, p);
    NotNamed(listing, p);
    AliasFrame(t, listing);
    WrittenFrame(WithAlias(t, listing), pub.result.value.text, site);
    RewrittenLater(t, listing, p);
  }

  lemma NotNamed(listing: seq<Path>, p: Path)
    requires IsFirstNamed(listing, BOOT_EFI, p)
    ensures p != [MBOOT]
  {
    NamesDiffer();
  }

  /** The alias changes no contents that a boot file shares. */
  lemma RewrittenLater(t: Tree, listing: seq<Path>, p: Path)
    requires AllIn(t, listing) && p in t
    ensures p in WithAlias(t, listing) && (Rewritten(WithAlias(t, listing), p) <==> Rewritten(t, p))
  {
    AliasFrame(t, listing);
    NamesDiffer();
    hide WithAlias, AUTO_CFG, MANUAL_CFG, CRYPTO, MBOOT, BOOT_EFI, BOOT_CFG, IsFirstNamed, AnyNamed;
  }

  /** A successful publication adds at most its four names. Every file of the image is still
      there; all but one that `mboot.efi` named keep their identity, and those that share nothing
      with an earlier boot file keep their contents. A new crypto64.efi is the first one listed. */
  lemma PublishedFiles(t: Tree, listing: seq<Path>, site: Site)
    requires AllIn(t, listing) && PublishTree(t, listing, site).result.Ok?
    ensures
      var tree := PublishTree(t, listing, site).tree;
      && (forall q :: q in t ==> q in tree)
      && (forall q :: q in tree ==> q in t || q == ["ipxe-boot.cfg"] || q == ["ipxe-boot-manual.cfg"]
                                    || q == ["mboot.efi"] || q == ["crypto64.efi"])
      && (forall q :: q in t && q != ["mboot.efi"] ==> tree[q].inode == t[q].inode)
      && (forall q :: q in t && q != ["mboot.efi"] && !Rewritten(t, q) ==> tree[q] == t[q])
      && (["crypto64.efi"] in tree && ["crypto64.efi"] !in t ==>
            exists c :: c in t && IsFirstNamed(listing, "crypto64.efi", c) && c in tree
                     && tree[["crypto64.efi"]].inode == t[c].inode)
      && (AnyNamed(listing, "crypto64.efi") ==> Exists(tree, ["crypto64.efi"]))
  {
    NewNames();
    NamesDiffer();
    hide Pool, Pick, IsFirstNamed, AnyNamed, CRYPTO, WithAlias, AUTO_CFG, MANUAL_CFG, MBOOT, BOOT_EFI, BOOT_CFG,
         PublishTree, Written, Rewritten, IsDir;
    var pub, t1 := PublishTree(t, listing, site), WithAlias(t, listing);
    PublishEnds(t, listing, site);
    AliasFrame(t, listing);
    WrittenFrame(t1, pub.result.value.text, site);
    forall q | q in t ensures Rewritten(t1, q) <==> Rewritten(t, q) { RewrittenLater(t, listing, q); }
    if AnyNamed(listing, CRYPTO) && [CRYPTO] !in t1 { StillDir(t1, pub.tree, [CRYPTO]); }
  }

  lemma StillDir(t: Tree, later: Tree, d: Path)
    requires IsDir(t, d) && forall q :: q in t ==> q in later
    ensures IsDir(later, d)
  {
  }

  // ---- When a publication succeeds --------------------------------------

  lemma SameDirs(t: Tree, later: Tree, d: Path)
    requires |d| == 1 && (forall q :: q in t ==> q in later)
    requires forall q :: q in later ==> q in t || |q| == 1
    ensures IsDir(later, d) <==> IsDir(t, d)
  {
  }

  /** A file can be written at the top of the image: no directory has that name. */
  predicate IsFree(t: Tree, name: string) { !IsDir(t, [name]) }

  lemma FreeLater(t: Tree, listing: seq<Path>, text: string, site: Site, name: string)
    requires AllIn(t, listing)
    ensures
      var t1 := WithAlias(t, listing);
      && (IsFree(t1, name) <==> IsFree(t, name))
      && (IsFree(WriteText(t1, [AUTO_CFG], text, site.inodes.0), name) <==> IsFree(t, name))
      && (IsFree(Written(t1, text, site), name) <==> IsFree(t, name))
  {
    hide WithAlias, WriteText, Written, IsDir, IsFirstNamed, AnyNamed, CRYPTO, AUTO_CFG, MANUAL_CFG;
    var t1 := WithAlias(t, listing);
    AliasFrame(t, listing);
    SameDirs(t, t1, [name]);
    WriteFrame(t1, [AUTO_CFG], text, site.inodes.0);
    SameDirs(t1, WriteText(t1, [AUTO_CFG], text, site.inodes.0), [name]);
    WrittenFrame(t1, text, site);
    SameDirs(t1, Written(t1, text, site), [name]);
  }

  lemma InLater(t: Tree, listing: seq<Path>, text: string, site: Site, p: Path)
    requires AllIn(t, listing) && p in t
    ensures p in WithAlias(t, listing) && p in Written(WithAlias(t, listing), text, site)
  {
    hide WithAlias, Written, IsFirstNamed, AnyNamed, IsDir;
    AliasFrame(t, listing);
    WrittenFrame(WithAlias(t, listing), text, site);
  }

  lemma ChosenIn(t: Tree, listing: seq<Path>, name: string)
    requires AllIn(t, listing) && name != "" && AnyNamed(listing, name)
    ensures Pool(listing, name) != [] && Pick(Pool(listing, name)) in t
  {
    hide Pool, Pick, IsFirstNamed, AnyNamed;
    PickIsFirstNamed(listing, name);
    FirstNamedIn(t, listing, name, Pick(Pool(listing, name)));
  }

  /** A publication gives up at the first thing that is missing: a boot.cfg, its kernel or a
      module, room for the two boot files, an EFI loader, room for its link. */
  lemma PublishDecides(t: Tree, listing: seq<Path>, site: Site)
    requires AllIn(t, listing)
    ensures AnyNamed(listing, BOOT_CFG) ==>
              Pool(listing, BOOT_CFG) != [] && Pick(Pool(listing, BOOT_CFG)) in WithAlias(t, listing)
    ensures
      var r := PublishTree(t, listing, site).result;
      if !AnyNamed(listing, BOOT_CFG) then r == Err(NoBootCfg)
      else
        var w := World(site.root, WithAlias(t, listing), site.others);
        var payload := PayloadOf(w, listing, Pick(Pool(listing, BOOT_CFG)), HttpPrefix(site));
        if payload.Err? then r == Err(payload.error)
        else if !IsFree(t, AUTO_CFG) then r == Err(NotAFile([AUTO_CFG]))
        else if !IsFree(t, MANUAL_CFG) then r == Err(NotAFile([MANUAL_CFG]))
        else if !AnyNamed(listing, BOOT_EFI) then r == Err(NoEfi)
        else if !IsFree(t, MBOOT) then r == Err(NotAFile([MBOOT]))
        else r == Ok(Payload(NormalizePaths(payload.value.text), payload.value.preload))
  {
    NamesDiffer();
    hide Pool, Pick, IsFirstNamed, AnyNamed, CRYPTO, WithAlias, AUTO_CFG, MANUAL_CFG, MBOOT, BOOT_EFI, BOOT_CFG,
         WriteText, PayloadOf, NormalizePaths, IsDir, HttpPrefix;
    PickIsFirstNamed(listing, BOOT_CFG);
    PickIsFirstNamed(listing, BOOT_EFI);
    if AnyNamed(listing, BOOT_CFG) {
      ChosenIn(t, listing, BOOT_CFG);
      InLater(t, listing, "", site, Pick(Pool(listing, BOOT_CFG)));
      var w := World(site.root, WithAlias(t, listing), site.others);
      var payload := PayloadOf(w, listing, Pick(Pool(listing, BOOT_CFG)), HttpPrefix(site));
      if payload.Ok? {
        var text := NormalizePaths(payload.value.text);
        FreeLater(t, listing, text, site, AUTO_CFG);
        FreeLater(t, listing, text, site, MANUAL_CFG);
        FreeLater(t, listing, text, site, MBOOT);
        if AnyNamed(listing, BOOT_EFI) {
          ChosenIn(t, listing, BOOT_EFI);
          InLater(t, listing, text, site, Pick(Pool(listing, BOOT_EFI)));
        }
      }
    }
  }
}
