/** Publishing an extracted ESXi image: the lower-cased tree, the crypto64 alias, the
    rewritten boot.cfg, the preload list and the EFI loader. */
module Publish {
  import opened Text
  import opened Kernelopt
  import opened Refresh
  import opened BootCfg
  import opened LowerTree
  import opened Resolve

  datatype PublishError =
    | Clash
    | NoBootCfg
    | NoKernel
    | NoModules
    | NotFound(ref: string)
    | BadBootCfg(error: RewriteError)
    | NotAFile(path: Path)
    | NoEfi

  /** What surrounds the version directory: where it stands, the server, the two slugs that name
      it, and the inodes its new files will get. */
  datatype Site = Site(
    root: Path, others: set<Path>, server: string, slug: string, folder: string, inodes: (nat, nat))

  /** A version directory as the menus name it. */
  function VersionBase(slug: string, folder: string): string { "boot/" + slug + "/" + folder }

  /** The web address of the version directory. */
  function HttpPrefix(site: Site): string {
    TrimRight(IsSlash, site.server) + "/" + VersionBase(site.slug, site.folder) + "/"
  }

  /** The text of the rewritten boot.cfg and the files iPXE loads, in order. */
  datatype Payload = Payload(text: string, preload: seq<string>)

  const BOOT_CFG := "boot.cfg"
  const CRYPTO := "crypto64.efi"
  const BOOT_EFI := "bootx64.efi"
  const AUTO_CFG := "ipxe-boot.cfg"
  const MANUAL_CFG := "ipxe-boot-manual.cfg"
  const MBOOT := "mboot.efi"

  // ---- crypto64 ---------------------------------------------------------

  function CryptoOf(listing: seq<Path>): Option<Path> {
    if Pool(listing, CRYPTO) == [] then None else Some(Pick(Pool(listing, CRYPTO)))
  }

  /** The tree with `crypto64.efi` also at its root. */
  function WithAlias(t: Tree, listing: seq<Path>): Tree {
    if CryptoOf(listing).None? || CryptoOf(listing).value !in t || Exists(t, [CRYPTO]) then t
    else t[[CRYPTO] := t[CryptoOf(listing).value]]
  }

  // ---- The payload ------------------------------------------------------

  function ValueIn(kv: map<string, string>, key: string): string {
    if key in kv then Strip(kv[key]) else ""
  }

  /** A file below the version directory as the menu and boot.cfg name it. */
  function RelText(p: Path): string { LowerRel(PosixText(p)) }

  /** Where the referenced file is, relative to the version directory. */
  function Find(w: World, cfgDir: Path, prefix: string, ref: string, listing: seq<Path>): Option<Path> {
    var c := Resolved(w, cfgDir, prefix, ref, listing);
    if c.None? || !(w.root <= Lexical(w.root, c.value)) || Located(w, c.value) !in w.tree then None
    else Some(Located(w, c.value))
  }

  function FindAll(w: World, cfgDir: Path, prefix: string, refs: seq<string>, listing: seq<Path>)
    : Result<seq<Path>, PublishError>
  {
    if refs == [] then Ok([])
    else
      match Find(w, cfgDir, prefix, refs[0], listing)
      case None => Err(NotFound(refs[0]))
      case Some(p) =>
        match FindAll(w, cfgDir, prefix, refs[1..], listing)
        case Err(e) => Err(e)
        case Ok(rest) => Ok([p] + rest)
  }

  function RelTexts(paths: seq<Path>): (r: seq<string>)
    ensures |r| == |paths| && forall i :: 0 <= i < |paths| ==> r[i] == RelText(paths[i])
  {
    seq(|paths|, i requires 0 <= i < |paths| => RelText(paths[i]))
  }

  predicate SameFile(t: Tree, p: Path, q: Path) { p in t && q in t && t[p].inode == t[q].inode }

  /** `crypto64.efi` goes first unless the kernel or a module is that very file. */
  function CryptoFirst(t: Tree, crypto: Option<Path>, kernel: Path, mods: seq<Path>): seq<string> {
    if crypto.None? || SameFile(t, crypto.value, kernel)
       || (exists i :: 0 <= i < |mods| && SameFile(t, crypto.value, mods[i]))
    then []
    else [RelText(crypto.value)]
  }

  function PayloadOf(w: World, listing: seq<Path>, cfg: Path, httpPrefix: string)
    : Result<Payload, PublishError>
    requires cfg in w.tree
  {
    var raw := w.tree[cfg].text;
    var kv, refs := Keys(map[], Assignments(raw)), ModuleList(Assignments(raw));
    var prefix, kernelRef := ValueIn(kv, PREFIX), ValueIn(kv, KERNEL);
    if kernelRef == "" then Err(NoKernel)
    else if refs == [] then Err(NoModules)
    else
      var kernel := Find(w, Up(cfg), prefix, kernelRef, listing);
      if kernel.None? then Err(NotFound(kernelRef))
      else
        var mods := FindAll(w, Up(cfg), prefix, refs, listing);
        if mods.Err? then Err(mods.error)
        else
          var kernelRel, modRels := RelText(kernel.value), RelTexts(mods.value);
          match Rewrite(raw, httpPrefix, kernelRel, modRels)
          case Err(e) => Err(BadBootCfg(e))
          case Ok(text) =>
            Ok(Payload(text, CryptoFirst(w.tree, CryptoOf(listing), kernel.value, mods.value)
                             + [kernelRel] + modRels))
  }

  // ---- The whole publication --------------------------------------------

  /** `write_text`: every name of the file shows the new text. */
  function WriteText(t: Tree, p: Path, text: string, inode: nat): Tree {
    if p in t then map q | q in t :: if t[q].inode == t[p].inode then File(t[q].inode, text) else t[q]
    else t[p := File(inode, text)]
  }

  datatype Publication = Publication(tree: Tree, result: Result<Payload, PublishError>)

  /** What publication makes of a lower-cased tree, given the listing of its files. */
  function PublishTree(t: Tree, listing: seq<Path>, site: Site): Publication {
    var t1 := WithAlias(t, listing);
    var cfgs := Pool(listing, BOOT_CFG);
    if cfgs == [] || Pick(cfgs) !in t1 then Publication(t1, Err(NoBootCfg))
    else
      match PayloadOf(World(site.root, t1, site.others), listing, Pick(cfgs), HttpPrefix(site))
      case Err(e) => Publication(t1, Err(e))
      case Ok(p) =>
        var text := NormalizePaths(p.text);
        if IsDir(t1, [AUTO_CFG]) then Publication(t1, Err(NotAFile([AUTO_CFG])))
        else
          var t2 := WriteText(t1, [AUTO_CFG], text, site.inodes.0);
          if IsDir(t2, [MANUAL_CFG]) then Publication(t2, Err(NotAFile([MANUAL_CFG])))
          else
            var t3 := WriteText(t2, [MANUAL_CFG], text, site.inodes.1);
            var efis := Pool(listing, BOOT_EFI);
            if efis == [] || Pick(efis) !in t3 then Publication(t3, Err(NoEfi))
            else if IsDir(t3, [MBOOT]) then Publication(t3, Err(NotAFile([MBOOT])))
            else Publication(t3[[MBOOT] := t3[Pick(efis)]], Ok(Payload(text, p.preload)))
  }

  // ---- The methods that do it -------------------------------------------

  method FindFile(w: World, cfgDir: Path, prefix: string, ref: string, listing: seq<Path>,
                  index: map<string, seq<Path>>)
    returns (found: Option<Path>)
    requires IsIndex(listing, index)
    ensures found == Find(w, cfgDir, prefix, ref, listing)
  {
    hide Resolved, Lexical, Pool;
    var c := ResolveFile(w, cfgDir, prefix, ref, listing, index);
    if c.None? || !(w.root <= Lexical(w.root, c.value)) || Located(w, c.value) !in w.tree {
      return None;
    }
    return Some(Located(w, c.value));
  }

  /** All references in order; the first that is not found stops the publication. */
  method FindModules(w: World, cfgDir: Path, prefix: string, refs: seq<string>, listing: seq<Path>,
                     index: map<string, seq<Path>>)
    returns (r: Result<seq<Path>, PublishError>)
    requires IsIndex(listing, index)
    ensures r == FindAll(w, cfgDir, prefix, refs, listing)
  {
    hide Find, IsIndex, FindAll;
    var found: seq<Path> := [];
    var i := 0;
    FoundSoFar(w, cfgDir, prefix, refs, listing, 0, []);
    while i < |refs|
      invariant 0 <= i <= |refs|
      invariant FindAll(w, cfgDir, prefix, refs, listing) ==
                Then(found, FindAll(w, cfgDir, prefix, refs[i..], listing))
    {
      var p := FindFile(w, cfgDir, prefix, refs[i], listing, index);
      FoundSoFar(w, cfgDir, prefix, refs, listing, i, found);
      if p.None? {
        return Err(NotFound(refs[i]));
      }
      found := found + [p.value];
      i := i + 1;
    }
    FoundSoFar(w, cfgDir, prefix, refs, listing, i, found);
    r := Ok(found);
  }

  function Then(found: seq<Path>, rest: Result<seq<Path>, PublishError>): Result<seq<Path>, PublishError> {
    match rest
    case Err(e) => Err(e)
    case Ok(more) => Ok(found + more)
  }

  lemma FoundSoFar(w: World, cfgDir: Path, prefix: string, refs: seq<string>, listing: seq<Path>, i: nat,
                   found: seq<Path>)
    requires i <= |refs|
    ensures i == |refs| ==> Then(found, FindAll(w, cfgDir, prefix, refs[i..], listing)) == Ok(found)
    ensures i == 0 ==> Then([], FindAll(w, cfgDir, prefix, refs[i..], listing)) ==
                       FindAll(w, cfgDir, prefix, refs, listing)
    ensures i < |refs| ==>
            Then(found, FindAll(w, cfgDir, prefix, refs[i..], listing)) ==
            match Find(w, cfgDir, prefix, refs[i], listing)
            case None => Err(NotFound(refs[i]))
            case Some(p) => Then(found + [p], FindAll(w, cfgDir, prefix, refs[i + 1..], listing))
  {
    hide Find;
    assert found + [] == found;
    var all := FindAll(w, cfgDir, prefix, refs[i..], listing);
    if all.Ok? { assert [] + all.value == all.value; }
    if i == 0 { assert refs[0..] == refs; }
    if i < |refs| {
      assert refs[i..][0] == refs[i] && refs[i..][1..] == refs[i + 1..];
      var p, rest := Find(w, cfgDir, prefix, refs[i], listing), FindAll(w, cfgDir, prefix, refs[i + 1..], listing);
      if p.Some? && rest.Ok? { Assoc(found, [p.value], rest.value); }
    }
  }

  method BuildPayload(w: World, listing: seq<Path>, index: map<string, seq<Path>>, cfg: Path,
                      httpPrefix: string)
    returns (r: Result<Payload, PublishError>)
    requires cfg in w.tree && IsIndex(listing, index)
    ensures r == PayloadOf(w, listing, cfg, httpPrefix)
  {
    hide Find, FindAll, IsIndex, Keys, ModuleList, Assignments, Rewrite, RelText, RelTexts, CryptoFirst, Strip,
         Pick, Pool, CryptoOf;
    var raw := w.tree[cfg].text;
    var kv, refs := ParseBootCfg(raw);
    var prefix, kernelRef := ValueIn(kv, PREFIX), ValueIn(kv, KERNEL);
    if kernelRef == "" {
      return Err(NoKernel);
    }
    if refs == [] {
      return Err(NoModules);
    }
    var kernel := FindFile(w, Up(cfg), prefix, kernelRef, listing, index);
    if kernel.None? {
      return Err(NotFound(kernelRef));
    }
    var mods := FindModules(w, Up(cfg), prefix, refs, listing, index);
    if mods.Err? {
      return Err(mods.error);
    }
    var kernelRel, modRels := RelText(kernel.value), RelTexts(mods.value);
    var text := RewriteBootCfg(raw, httpPrefix, kernelRel, modRels);
    if text.Err? {
      return Err(BadBootCfg(text.error));
    }
    var first := FirstCrypto(w.tree, listing, index, kernel.value, mods.value);
    r := Ok(Payload(text.value, first + [kernelRel] + modRels));
  }

  method FirstCrypto(t: Tree, listing: seq<Path>, index: map<string, seq<Path>>, kernel: Path,
                     mods: seq<Path>)
    returns (first: seq<string>)
    requires IsIndex(listing, index)
    ensures first == CryptoFirst(t, CryptoOf(listing), kernel, mods)
  {
    hide Pick, Pool, RelText, SameFile;
    if CRYPTO !in index {
      return [];
    }
    var crypto := PickPreferred(index[CRYPTO]);
    var duplicate := SameFile(t, crypto, kernel);
    var i := 0;
    while i < |mods| && !duplicate
      invariant 0 <= i <= |mods|
      invariant duplicate <==> SameFile(t, crypto, kernel) ||
                               (exists j :: 0 <= j < i && SameFile(t, crypto, mods[j]))
    {
      duplicate := SameFile(t, crypto, mods[i]);
      i := i + 1;
    }
    first := if duplicate then [] else [RelText(crypto)];
  }

  /** Publishes the lower-cased image in place. */
  method PublishImage(dir: VersionDir, listing: seq<Path>, site: Site)
    returns (r: Result<Payload, PublishError>)
    modifies dir
    ensures PublishTree(old(dir.tree), listing, site) == Publication(dir.tree, r)
  {
    hide Pick, Pool, PayloadOf, NormalizePaths, WriteText, IsDir, Exists, PosixText, NotAfter, HttpPrefix, AUTO_CFG,
         MANUAL_CFG, MBOOT, BOOT_CFG, BOOT_EFI, CRYPTO;
    var index := IndexFiles(listing);
    if CRYPTO in index {
      var crypto := PickPreferred(index[CRYPTO]);
      if crypto in dir.tree && !Exists(dir.tree, [CRYPTO]) {
        dir.tree := dir.tree[[CRYPTO] := dir.tree[crypto]];
      }
    }
    if BOOT_CFG !in index {
      return Err(NoBootCfg);
    }
    var cfg := PickPreferred(index[BOOT_CFG]);
    if cfg !in dir.tree {
      return Err(NoBootCfg);
    }
    var payload := BuildPayload(World(site.root, dir.tree, site.others), listing, index, cfg,
                                HttpPrefix(site));
    if payload.Err? {
      return payload;
    }
    var text := NormalizeBootCfgPaths(payload.value.text);
    if IsDir(dir.tree, [AUTO_CFG]) {
      return Err(NotAFile([AUTO_CFG]));
    }
    dir.tree := WriteText(dir.tree, [AUTO_CFG], text, site.inodes.0);
    if IsDir(dir.tree, [MANUAL_CFG]) {
      return Err(NotAFile([MANUAL_CFG]));
    }
    dir.tree := WriteText(dir.tree, [MANUAL_CFG], text, site.inodes.1);
    if BOOT_EFI !in index {
      return Err(NoEfi);
    }
    var efi := PickPreferred(index[BOOT_EFI]);
    if efi !in dir.tree {
      return Err(NoEfi);
    }
    if IsDir(dir.tree, [MBOOT]) {
      return Err(NotAFile([MBOOT]));
    }
    dir.tree := dir.tree[[MBOOT] := dir.tree[efi]];
    r := Ok(Payload(text, payload.value.preload));
  }

  /** The whole step after extraction, on the tree: nothing changes when its files clash in
      lower case. */
  function ExtractTree(t: Tree, files: seq<Path>, listing: seq<Path>, site: Site): Publication
    requires AllIn(t, files)
  {
    match Lowered(t, files)
    case Err(_) => Publication(t, Err(Clash))
    case Ok(low) => PublishTree(low, listing, site)
  }

  /** The whole step after extraction: lower-case the directory, then publish it. */
  method ExtractEsxi(dir: VersionDir, files: seq<Path>, listing: seq<Path>, site: Site)
    returns (r: Result<Payload, PublishError>)
    requires IsListing(dir.tree, files)
    requires Lowered(dir.tree, files).Ok? ==> IsListing(Lowered(dir.tree, files).value, listing)
    modifies dir
    ensures ExtractTree(old(dir.tree), files, listing, site) == Publication(dir.tree, r)
  {
    hide PublishTree, Lowered;
    var fault := dir.LowerCase(files);
    if fault.Some? {
      return Err(Clash);
    }
    r := PublishImage(dir, listing, site);
  }
}
