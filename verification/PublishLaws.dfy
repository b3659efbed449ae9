/** What a published ESXi version promises: every path its boot.cfg and its preload list
    name is a file of the published tree. */
module PublishLaws {
  import opened Text
  import opened Kernelopt
  import opened KickstartLaws
  import opened Modules
  import opened Refresh
  import opened BootCfg
  import opened BootCfgLaws
  import opened RefreshMeans
  import opened PlainMarks
  import opened FinalCfg
  import opened LowerTree
  import opened Resolve
  import opened ResolveLaws
  import opened Publish
  import opened PublishFiles

  // ---- Names ------------------------------------------------------------

  predicate PathChar(c: char) { !IsSpace(c) && c != '\\' }

  predicate NameChar(c: char) { PathChar(c) && c != '/' }

  /** A file name without white space, backslash and triple dash. */
  predicate NiceName(s: string) {
    s != "" && s != "." && s != ".." && All(NameChar, s) && NoDashes(s)
  }

  predicate GoodName(s: string) { NiceName(s) && IsLowered(s) }

  predicate GoodPath(p: Path) {
    p != [] && forall i :: 0 <= i < |p| ==> GoodName(p[i])
  }

  /** A tree in lower case with only such names. */
  ghost predicate GoodTree(t: Tree) { forall p :: p in t ==> GoodPath(p) }

  /** What a path of good names looks like as text. */
  predicate GoodText(x: string) {
    x != "" && All(PathChar, x) && x[0] != '/' && x[|x| - 1] != '/' && NoDashes(x) && IsLowered(x)
  }

  lemma NoDashesAcross(a: string, b: string)
    requires NoDashes(a) && NoDashes(b)
    ensures NoDashes(a + "/" + b)
  {
    var s := a + "/" + b;
    NoDashesMeans(a);
    NoDashesMeans(b);
    NoDashesMeans(s);
    hide NoDashes;
    forall i: nat ensures !DashesAt(s, i) {
      assert !DashesAt(a, i);
      if i > |a| { assert !DashesAt(b, i - |a| - 1); }
      assert s[|a|] == '/';
    }
  }

  lemma NameIsText(s: string)
    requires GoodName(s)
    ensures GoodText(s)
  {
    assert forall i :: 0 <= i < |s| ==> NameChar(s[i]);
  }

  lemma TextAcross(a: string, b: string)
    requires GoodText(a) && GoodText(b)
    ensures GoodText(a + "/" + b)
  {
    var s := a + "/" + b;
    NoDashesAcross(a, b);
    hide NoDashes;
    assert forall i :: 0 <= i < |s| ==>
      s[i] == if i < |a| then a[i] else if i == |a| then '/' else b[i - |a| - 1];
    LowerConcat(a + "/", b);
    LowerConcat(a, "/");
    assert Lower("/") == "/";
  }

  lemma {:induction false} PathIsText(p: Path)
    requires GoodPath(p)
    ensures GoodText(PosixText(p))
  {
    assert GoodName(p[0]);
    hide GoodName, GoodText;
    NameIsText(p[0]);
    if |p| > 1 {
      assert GoodPath(p[1..]);
      PathIsText(p[1..]);
      TextAcross(p[0], PosixText(p[1..]));
    }
  }

  lemma TextBare(x: string)
    requires GoodText(x)
    ensures Trimmed(x) && OneLine(x) && !IsContinued(x) && Bare(IsSlash, x) && Slashed(x) == x
  {
    hide NoDashes;
    assert forall i :: 0 <= i < |x| ==> PathChar(x[i]);
    assert Slashed(x) == x;
  }

  /** Such a text is a path in its final form. */
  lemma TextIsRel(x: string)
    requires GoodText(x)
    ensures IsRelPath(x) && LowerRel(x) == x
  {
    TextBare(x);
    hide All, NoDashes, IsContinued, Trim;
    TrimBare(IsSpace, x);
    TrimBare(IsSlash, x);
  }

  lemma GoodSegments(p: Path)
    requires GoodPath(p)
    ensures AreSegments(p)
  {
    hide NoDashes, IsLowered;
    forall i | 0 <= i < |p| ensures IsSegment(p[i]) {
      assert GoodName(p[i]);
      assert forall k :: 0 <= k < |p[i]| ==> NameChar(p[i][k]);
    }
  }

  /** A file of the tree, as the menu and boot.cfg name it, leads back to that file. */
  lemma RelTextIs(p: Path)
    requires GoodPath(p)
    ensures IsRelPath(RelText(p)) && PosixParts(RelText(p)) == p
  {
    PathIsText(p);
    TextIsRel(PosixText(p));
    GoodSegments(p);
    hide AreSegments;
    PartsOfText(p);
  }

  // ---- Trees with such names --------------------------------------------

  ghost predicate NiceTree(t: Tree) {
    forall p :: p in t ==> p != [] && forall i :: 0 <= i < |p| ==> NiceName(p[i])
  }

  lemma LowerName(s: string)
    requires NiceName(s)
    ensures GoodName(Lower(s))
  {
    var x := Lower(s);
    assert forall i :: 0 <= i < |s| ==> NameChar(s[i]);
    assert x == "." ==> s == ".";
    assert x == ".." ==> s == "..";
    LowerTwice(s);
    LowerDashes(s);
  }

  lemma LowerDashes(s: string)
    requires NoDashes(s)
    ensures NoDashes(Lower(s))
  {
    NoDashesMeans(s);
    NoDashesMeans(Lower(s));
    hide NoDashes;
    forall i: nat ensures !DashesAt(Lower(s), i) { assert !DashesAt(s, i); }
  }

  lemma LowerGoodPath(p: Path)
    requires p != [] && forall i :: 0 <= i < |p| ==> NiceName(p[i])
    ensures GoodPath(LowerPath(p))
  {
    hide NiceName, GoodName, Lower;
    forall i | 0 <= i < |p| ensures GoodName(LowerPath(p)[i]) { LowerName(p[i]); }
  }

  /** Lower-casing a tree of nice names gives a tree of good ones. */
  lemma LoweredIsGood(t: Tree, files: seq<Path>)
    requires NiceTree(t) && AllIn(t, files) && Lowered(t, files).Ok?
    ensures GoodTree(Lowered(t, files).value)
  {
    LoweredExactly(t, files);
    var done := Lowered(t, files).value;
    hide NiceName, GoodName, LowerPath, Lowered, GoodPath, Clashes;
    forall d | d in done ensures GoodPath(d) {
      var p := files[FirstUnder(files, d)];
      assert LowerPath(p) == d;
      LowerGoodPath(p);
    }
  }

  // ---- Files found ------------------------------------------------------

  lemma FoundIsFile(w: World, cfgDir: Path, prefix: string, ref: string, listing: seq<Path>)
    requires Find(w, cfgDir, prefix, ref, listing).Some?
    ensures Find(w, cfgDir, prefix, ref, listing).value in w.tree
  {
    hide Resolved, Lexical;
  }

  /** A reference is found exactly when it resolves. */
  lemma FoundMeans(w: World, cfgDir: Path, prefix: string, ref: string, listing: seq<Path>)
    requires PlainNames(w.tree) && AllIn(w.tree, listing)
    ensures Find(w, cfgDir, prefix, ref, listing).Some? <==> Resolved(w, cfgDir, prefix, ref, listing).Some?
  {
    hide Resolved, Lexical;
    if Resolved(w, cfgDir, prefix, ref, listing).Some? {
      ResolvedIsFile(w, cfgDir, prefix, ref, listing);
    }
  }

  /** All references are found in order, or the first missing one is reported. */
  lemma {:induction false} FindAllAt(w: World, cfgDir: Path, prefix: string, refs: seq<string>,
                                     listing: seq<Path>)
    ensures
      var r := FindAll(w, cfgDir, prefix, refs, listing);
      r.Ok? ==> |r.value| == |refs| &&
                forall i :: 0 <= i < |refs| ==> Find(w, cfgDir, prefix, refs[i], listing) == Some(r.value[i])
  {
    hide Find;
    if refs != [] {
      FindAllAt(w, cfgDir, prefix, refs[1..], listing);
      assert forall i :: 1 <= i < |refs| ==> refs[i] == refs[1..][i - 1];
    }
  }

  lemma FoundAllInTree(w: World, cfgDir: Path, prefix: string, refs: seq<string>, listing: seq<Path>)
    requires FindAll(w, cfgDir, prefix, refs, listing).Ok?
    ensures AllIn(w.tree, FindAll(w, cfgDir, prefix, refs, listing).value)
  {
    var found := FindAll(w, cfgDir, prefix, refs, listing).value;
    FindAllAt(w, cfgDir, prefix, refs, listing);
    hide Find, FindAll;
    forall i | 0 <= i < |found| ensures found[i] in w.tree {
      assert Find(w, cfgDir, prefix, refs[i], listing) == Some(found[i]);
      FoundIsFile(w, cfgDir, prefix, refs[i], listing);
    }
  }

  // ---- Main results -----------------------------------------------------

  /** A path of boot.cfg or of the preload list is a file of the tree. */
  predicate Names(t: Tree, path: string) { PosixParts(path) in t }

  predicate AllName(t: Tree, paths: seq<string>) {
    forall i :: 0 <= i < |paths| ==> Names(t, paths[i])
  }

  lemma RelNames(t: Tree, p: Path)
    requires GoodTree(t) && p in t
    ensures IsRelPath(RelText(p)) && PosixParts(RelText(p)) == p && Names(t, RelText(p))
  {
    assert GoodPath(p);
    hide GoodPath, RelText, IsRelPath, PosixParts;
    RelTextIs(p);
  }

  lemma RelTextsName(t: Tree, paths: seq<Path>)
    requires GoodTree(t) && AllIn(t, paths)
    ensures AreRelPaths(RelTexts(paths)) && AllName(t, RelTexts(paths))
    ensures forall i :: 0 <= i < |paths| ==> PosixParts(RelTexts(paths)[i]) == paths[i]
  {
    hide GoodTree, RelText, IsRelPath, PosixParts, Names;
    forall i | 0 <= i < |paths|
      ensures IsRelPath(RelTexts(paths)[i]) && Names(t, RelTexts(paths)[i])
      ensures PosixParts(RelTexts(paths)[i]) == paths[i]
    {
      RelNames(t, paths[i]);
    }
  }

  /** The published boot.cfg and preload list: the kernel and the modules of the source, in
      order, each led to the file its reference stands for. */
  ghost predicate IsPublished(w: World, listing: seq<Path>, cfg: Path, text: string, preload: seq<string>)
    requires cfg in w.tree
  {
    var source, items := Assignments(w.tree[cfg].text), Assignments(text);
    var kv, mods, refs := Keys(map[], items), ModuleList(items), ModuleList(source);
    var prefix := ValueIn(Keys(map[], source), PREFIX);
    && KERNEL in kv
    && Names(w.tree, kv[KERNEL])
    && Find(w, Up(cfg), prefix, ValueIn(Keys(map[], source), KERNEL), listing) == Some(PosixParts(kv[KERNEL]))
    && AllName(w.tree, mods)
    && |mods| == |refs| > 0
    && (forall i :: 0 <= i < |mods| ==>
          Find(w, Up(cfg), prefix, refs[i], listing) == Some(PosixParts(mods[i])))
    && AllName(w.tree, preload)
    && (exists first :: preload == first + [kv[KERNEL]] + mods && IsCryptoFirst(w.tree, listing, kv[KERNEL], mods, first))
  }

  /** crypto64 comes first when there is one that is neither the kernel nor a module. */
  ghost predicate IsCryptoFirst(t: Tree, listing: seq<Path>, kernel: string, mods: seq<string>,
                                first: seq<string>)
  {
    match CryptoOf(listing)
    case None => first == []
    case Some(c) =>
      if SameFile(t, c, PosixParts(kernel))
         || exists i :: 0 <= i < |mods| && SameFile(t, c, PosixParts(mods[i]))
      then first == []
      else first == [RelText(c)]
  }

  /** The parts of a successful payload. */
  lemma PayloadParts(w: World, listing: seq<Path>, cfg: Path, httpPrefix: string)
    returns (kernel: Path, mods: seq<Path>)
    requires cfg in w.tree && PayloadOf(w, listing, cfg, httpPrefix).Ok?
    ensures
      var raw := w.tree[cfg].text;
      var kv, refs := Keys(map[], Assignments(raw)), ModuleList(Assignments(raw));
      var prefix, p := ValueIn(kv, PREFIX), PayloadOf(w, listing, cfg, httpPrefix).value;
      && KERNEL in kv && refs != []
      && Find(w, Up(cfg), prefix, ValueIn(kv, KERNEL), listing) == Some(kernel)
      && FindAll(w, Up(cfg), prefix, refs, listing) == Ok(mods)
      && Rewrite(raw, httpPrefix, RelText(kernel), RelTexts(mods)) == Ok(p.text)
      && p.preload == CryptoFirst(w.tree, CryptoOf(listing), kernel, mods)
                      + [RelText(kernel)] + RelTexts(mods)
  {
    hide Find, FindAll, Keys, ModuleList, Assignments, Rewrite, RelText, RelTexts, CryptoFirst, Strip, CryptoOf;
    var raw := w.tree[cfg].text;
    var kv, refs := Keys(map[], Assignments(raw)), ModuleList(Assignments(raw));
    kernel := Find(w, Up(cfg), ValueIn(kv, PREFIX), ValueIn(kv, KERNEL), listing).value;
    mods := FindAll(w, Up(cfg), ValueIn(kv, PREFIX), refs, listing).value;
  }

  lemma CryptoInTree(t: Tree, listing: seq<Path>)
    requires AllIn(t, listing) && CryptoOf(listing).Some?
    ensures CryptoOf(listing).value in t
  {
    hide Pick, Pool;
    var pool := Pool(listing, CRYPTO);
    PickIsLeast(pool);
    PoolMeans(listing, CRYPTO, Pick(pool));
  }

  lemma SameAsNamed(t: Tree, c: Path, mods: seq<Path>, rels: seq<string>)
    requires |rels| == |mods| && forall i :: 0 <= i < |mods| ==> PosixParts(rels[i]) == mods[i]
    ensures (exists i :: 0 <= i < |mods| && SameFile(t, c, mods[i])) <==>
            (exists i :: 0 <= i < |rels| && SameFile(t, c, PosixParts(rels[i])))
  {
    hide SameFile, PosixParts;
    if i :| 0 <= i < |mods| && SameFile(t, c, mods[i]) {
      assert SameFile(t, c, PosixParts(rels[i]));
    }
    if i :| 0 <= i < |rels| && SameFile(t, c, PosixParts(rels[i])) {
      assert SameFile(t, c, mods[i]);
    }
  }

  lemma FirstIsCrypto(t: Tree, listing: seq<Path>, kernel: Path, mods: seq<Path>)
    requires GoodTree(t) && AllIn(t, listing) && kernel in t && AllIn(t, mods)
    ensures
      var first := CryptoFirst(t, CryptoOf(listing), kernel, mods);
      && IsCryptoFirst(t, listing, RelText(kernel), RelTexts(mods), first)
      && AllName(t, first)
  {
    hide CryptoOf, PosixParts, RelText, RelTexts, GoodTree, SameFile, AreRelPaths, IsRelPath, Names, AllIn;
    RelNames(t, kernel);
    if CryptoOf(listing).Some? {
      var c := CryptoOf(listing).value;
      CryptoInTree(t, listing);
      RelNames(t, c);
      assert SameFile(t, c, PosixParts(RelText(kernel))) <==> SameFile(t, c, kernel);
      RelTextsName(t, mods);
      hide AllName;
      SameAsNamed(t, c, mods, RelTexts(mods));
      OneNamed(t, RelText(c));
    }
  }

  lemma OneNamed(t: Tree, path: string)
    ensures AllName(t, [path]) <==> Names(t, path)
    ensures AllName(t, [])
  {
    hide Names;
    assert [path][0] == path;
  }

  lemma NamesJoined(t: Tree, first: seq<string>, kernel: string, mods: seq<string>)
    requires AllName(t, first) && Names(t, kernel) && AllName(t, mods)
    ensures AllName(t, first + [kernel] + mods)
  {
    hide Names;
  }

  lemma RewrittenMeaning(raw: string, httpPrefix: string, kernel: string, mods: seq<string>, text: string)
    requires PlainCfg(raw)
    requires IsHttpPrefix(FullPrefix(httpPrefix)) && IsRelPath(kernel) && AreRelPaths(mods)
    requires |ModuleList(Assignments(raw))| == |mods| && KERNEL in Keys(map[], Assignments(raw))
    requires Rewrite(raw, httpPrefix, kernel, mods) == Ok(text)
    ensures
      var items := Assignments(NormalizePaths(text));
      var kv := Keys(map[], items);
      KERNEL in kv && kv[KERNEL] == kernel && ModuleList(items) == mods
      && PREFIX in kv && kv[PREFIX] == FullPrefix(httpPrefix) && PREFIX_HTTP !in kv
  {
    var lines := Clean(LogicalLines(raw));
    KindsOfKeys();
    hide Rewrite, Assignments, Keys, ModuleList, Expected, BomFree, NoneContinues, IsPath, ArePaths, IsRelPath,
         AreRelPaths, IsHttpPrefix, FullPrefix, PREFIX, KERNEL, LogicalLines, SplitLines, Normalize, KindOf,
         NormalizePaths, Clean, AreHarmless, ReadLines, StandFor, NoBreaks, KeyIn;
    LinesAssign(raw);
    HarmlessStands(raw, FullPrefix(httpPrefix), kernel, mods);
    CleanAssigns(LogicalLines(raw));
    KeysHold(map[], Assignments(raw), KERNEL);
    KeysHold(map[], ReadLines(lines), KERNEL);
    PublishedFrom(raw, lines, httpPrefix, kernel, mods);
    RelPathsArePaths(mods);
    ExpectedMeaning(ReadLines(lines), FullPrefix(httpPrefix), kernel, mods);
  }

  lemma LinesAssign(raw: string)
    ensures Assignments(raw) == ReadLines(LogicalLines(raw))
  {
  }

  /** A boot.cfg in which no byte order mark hides the kernel, a module, the prefix or the
      kernel options, and no kept line ends in a backslash. */
  predicate PlainCfg(text: string) {
    AreHarmless(LogicalLines(text)) && NoneContinues(Clean(LogicalLines(text)))
  }

  /** Whenever the payload is built from a tree of good names and such a boot.cfg, every path it
      publishes is a file of the tree. */
  lemma PayloadIsPublished(w: World, listing: seq<Path>, cfg: Path, httpPrefix: string)
    requires cfg in w.tree && GoodTree(w.tree) && AllIn(w.tree, listing)
    requires PlainCfg(w.tree[cfg].text)
    requires IsHttpPrefix(FullPrefix(httpPrefix)) && PayloadOf(w, listing, cfg, httpPrefix).Ok?
    ensures
      var p := PayloadOf(w, listing, cfg, httpPrefix).value;
      IsPublished(w, listing, cfg, NormalizePaths(p.text), p.preload)
      && ReadsPrefix(NormalizePaths(p.text), FullPrefix(httpPrefix))
  {
    hide PayloadOf, Find, FindAll, Keys, ModuleList, Assignments, Rewrite, RelText, RelTexts, CryptoFirst,
         PlainCfg, LogicalLines, IsHttpPrefix, FullPrefix, GoodTree, Names, AllName, IsRelPath, AreRelPaths,
         PosixParts, AllIn, CryptoOf, IsCryptoFirst, NormalizePaths, KERNEL, PREFIX;
    var raw, p := w.tree[cfg].text, PayloadOf(w, listing, cfg, httpPrefix).value;
    var kernel, mods := PayloadParts(w, listing, cfg, httpPrefix);
    var kv, refs := Keys(map[], Assignments(raw)), ModuleList(Assignments(raw));
    var prefix := ValueIn(kv, PREFIX);
    FoundIsFile(w, Up(cfg), prefix, ValueIn(kv, KERNEL), listing);
    FoundAllInTree(w, Up(cfg), prefix, refs, listing);
    FindAllAt(w, Up(cfg), prefix, refs, listing);
    RelNames(w.tree, kernel);
    RelTextsName(w.tree, mods);
    FirstIsCrypto(w.tree, listing, kernel, mods);
    NamesJoined(w.tree, CryptoFirst(w.tree, CryptoOf(listing), kernel, mods), RelText(kernel), RelTexts(mods));
    RewrittenMeaning(raw, httpPrefix, RelText(kernel), RelTexts(mods), p.text);
  }

  /** With no byte order mark in front of a special key the rewriter never refuses what
      resolution gives. */
  lemma NeverRefused(w: World, listing: seq<Path>, cfg: Path, httpPrefix: string)
    requires cfg in w.tree && AreHarmless(LogicalLines(w.tree[cfg].text))
    ensures
      var r := PayloadOf(w, listing, cfg, httpPrefix);
      r.Err? ==> !r.error.BadBootCfg?
  {
    hide Find, FindAll, Keys, ModuleList, Assignments, Rewrite, RelText, RelTexts, CryptoFirst, AreHarmless, Strip,
         LogicalLines, CryptoOf;
    var raw := w.tree[cfg].text;
    var kv, refs := Keys(map[], Assignments(raw)), ModuleList(Assignments(raw));
    var kernel := Find(w, Up(cfg), ValueIn(kv, PREFIX), ValueIn(kv, KERNEL), listing);
    var mods := FindAll(w, Up(cfg), ValueIn(kv, PREFIX), refs, listing);
    FindAllErrs(w, Up(cfg), ValueIn(kv, PREFIX), refs, listing);
    if kernel.Some? && mods.Ok? {
      FindAllAt(w, Up(cfg), ValueIn(kv, PREFIX), refs, listing);
      assert |RelTexts(mods.value)| == |refs|;
      HarmlessIsOk(raw, httpPrefix, RelText(kernel.value), RelTexts(mods.value));
    }
  }

  lemma {:induction false} FindAllErrs(w: World, cfgDir: Path, prefix: string, refs: seq<string>,
                                       listing: seq<Path>)
    ensures
      var r := FindAll(w, cfgDir, prefix, refs, listing);
      r.Err? ==> r.error.NotFound? && r.error.ref in refs &&
                 Find(w, cfgDir, prefix, r.error.ref, listing).None?
  {
    hide Find;
    if refs != [] { FindAllErrs(w, cfgDir, prefix, refs[1..], listing); }
  }

  /** A payload is built exactly when boot.cfg names a kernel and modules and all of them are
      found; otherwise the first that is missing is reported. */
  lemma PayloadDecides(w: World, listing: seq<Path>, cfg: Path, httpPrefix: string)
    requires cfg in w.tree && AreHarmless(LogicalLines(w.tree[cfg].text))
    ensures
      var kv, refs := Keys(map[], Assignments(w.tree[cfg].text)), ModuleList(Assignments(w.tree[cfg].text));
      var prefix, kernelRef := ValueIn(kv, PREFIX), ValueIn(kv, KERNEL);
      var r := PayloadOf(w, listing, cfg, httpPrefix);
      if kernelRef == "" then r == Err(NoKernel)
      else if refs == [] then r == Err(NoModules)
      else if Find(w, Up(cfg), prefix, kernelRef, listing).None? then r == Err(NotFound(kernelRef))
      else if forall i :: 0 <= i < |refs| ==> Find(w, Up(cfg), prefix, refs[i], listing).Some? then r.Ok?
      else exists i :: 0 <= i < |refs| && r == Err(NotFound(refs[i]))
                    && Find(w, Up(cfg), prefix, refs[i], listing).None?
                    && forall j :: 0 <= j < i ==> Find(w, Up(cfg), prefix, refs[j], listing).Some?
  {
    hide Find, FindAll, Keys, ModuleList, Assignments, Rewrite, RelText, RelTexts, CryptoFirst, AreHarmless, Strip,
         LogicalLines, CryptoOf, PREFIX, KERNEL;
    var raw := w.tree[cfg].text;
    var kv, refs := Keys(map[], Assignments(raw)), ModuleList(Assignments(raw));
    NeverRefused(w, listing, cfg, httpPrefix);
    FirstMissing(w, Up(cfg), ValueIn(kv, PREFIX), refs, listing);
  }

  lemma {:induction false} FirstMissing(w: World, cfgDir: Path, prefix: string, refs: seq<string>,
                                        listing: seq<Path>)
    ensures
      var r := FindAll(w, cfgDir, prefix, refs, listing);
      if forall i :: 0 <= i < |refs| ==> Find(w, cfgDir, prefix, refs[i], listing).Some? then r.Ok?
      else exists i :: 0 <= i < |refs| && r == Err(NotFound(refs[i]))
                    && Find(w, cfgDir, prefix, refs[i], listing).None?
                    && forall j :: 0 <= j < i ==> Find(w, cfgDir, prefix, refs[j], listing).Some?
  {
    hide Find;
    if refs != [] {
      var rest := refs[1..];
      FirstMissing(w, cfgDir, prefix, rest, listing);
      assert forall i :: 0 < i < |refs| ==> refs[i] == rest[i - 1];
      if Find(w, cfgDir, prefix, refs[0], listing).Some?
         && exists i :: 0 <= i < |rest| && Find(w, cfgDir, prefix, rest[i], listing).None?
      {
        var i :| 0 <= i < |rest| && FindAll(w, cfgDir, prefix, rest, listing) == Err(NotFound(rest[i]))
                 && Find(w, cfgDir, prefix, rest[i], listing).None?
                 && forall j :: 0 <= j < i ==> Find(w, cfgDir, prefix, rest[j], listing).Some?;
        assert refs[i + 1] == rest[i];
        assert forall j :: 0 <= j < i + 1 ==> j == 0 || refs[j] == rest[j - 1];
      }
    }
  }

  // ---- The published tree -----------------------------------------------

  ghost predicate Keeps(t: Tree, later: Tree) { forall p :: p in t ==> p in later }

  lemma AliasIsGood(t: Tree, listing: seq<Path>)
    requires GoodTree(t)
    ensures GoodTree(WithAlias(t, listing)) && Keeps(t, WithAlias(t, listing))
    ensures forall p :: p in t ==> WithAlias(t, listing)[p] == t[p]
  {
    assert GoodPath([CRYPTO]) by {
      CryptoIsGood();
      hide GoodName;
    }
    hide GoodPath, CryptoOf;
  }

  predicate PlainChar(c: char) { NameChar(c) && c != '-' && LowerChar(c) == c }

  lemma PlainIsGood(s: string)
    requires |s| > 2 && All(PlainChar, s)
    ensures GoodName(s)
  {
    assert forall i :: 0 <= i < |s| ==> PlainChar(s[i]);
    NoDashesMeans(s);
    assert Lower(s) == s;
  }

  lemma CryptoIsGood()
    ensures GoodName(CRYPTO)
  {
    assert |CRYPTO| == 12 && All(PlainChar, CRYPTO) by { hide NoDashes; }
    hide CRYPTO, All;
    PlainIsGood(CRYPTO);
  }

  lemma WriteKeeps(t: Tree, p: Path, text: string, inode: nat)
    ensures Keeps(t, WriteText(t, p, text, inode))
    ensures p in WriteText(t, p, text, inode) && WriteText(t, p, text, inode)[p].text == text
    ensures forall q :: q in t && t[q].text == text ==> WriteText(t, p, text, inode)[q].text == text
  {
  }

  lemma NamesKept(t: Tree, later: Tree, paths: seq<string>)
    requires AllName(t, paths) && Keeps(t, later)
    ensures AllName(later, paths)
  {
    hide PosixParts;
    forall i | 0 <= i < |paths| ensures Names(later, paths[i]) { assert Names(t, paths[i]); }
  }

  /** The steps of a publication that succeeds. */
  lemma PublishSteps(t: Tree, listing: seq<Path>, site: Site)
    requires PublishTree(t, listing, site).result.Ok?
    ensures Pool(listing, BOOT_CFG) != [] && Pick(Pool(listing, BOOT_CFG)) in WithAlias(t, listing)
    ensures
      var pub, t1, cfg := PublishTree(t, listing, site), WithAlias(t, listing), Pick(Pool(listing, BOOT_CFG));
      var r := PayloadOf(World(site.root, t1, site.others), listing, cfg, HttpPrefix(site));
      && r.Ok?
      && pub.result.value == Payload(NormalizePaths(r.value.text), r.value.preload)
      && Keeps(t1, pub.tree)
      && [AUTO_CFG] in pub.tree && pub.tree[[AUTO_CFG]].text == pub.result.value.text
      && [MANUAL_CFG] in pub.tree && pub.tree[[MANUAL_CFG]].text == pub.result.value.text
      && [MBOOT] in pub.tree
  {
    hide Pool, Pick, PayloadOf, NormalizePaths, WithAlias, WriteText, IsDir, AUTO_CFG, MANUAL_CFG, MBOOT, BOOT_CFG;
    PublishFiles.NamesDiffer();
    var t1, cfg := WithAlias(t, listing), Pick(Pool(listing, BOOT_CFG));
    var p := PayloadOf(World(site.root, t1, site.others), listing, cfg, HttpPrefix(site)).value;
    var text := NormalizePaths(p.text);
    WriteKeeps(t1, [AUTO_CFG], text, site.inodes.0);
    var t2 := WriteText(t1, [AUTO_CFG], text, site.inodes.0);
    WriteKeeps(t2, [MANUAL_CFG], text, site.inodes.1);
  }

  /** The boot.cfg that is read is the first one of the image. The one for automatic and the one
      for manual boot are the same text; its prefix is the address of the version; its kernel and
      modules are, in order, the files the source's references stand for; these and every entry of
      the preload list are files of the published tree; and `mboot.efi` is the first EFI loader. */
  ghost predicate IsComplete(t: Tree, listing: seq<Path>, site: Site, pub: Publication)
    requires pub.result.Ok? && Pool(listing, BOOT_CFG) != []
  {
    var t1, cfg := WithAlias(t, listing), Pick(Pool(listing, BOOT_CFG));
    var p := pub.result.value;
    && cfg in t1 && IsFirstNamed(listing, "boot.cfg", cfg)
    && HasLoader(t, listing, pub.tree)
    && ReadsPrefix(p.text, FullPrefix(HttpPrefix(site)))
    && IsPublished(World(site.root, t1, site.others), listing, cfg, p.text, p.preload)
    && AllName(pub.tree, p.preload)
    && AllName(pub.tree, ModuleList(Assignments(p.text)))
    && KERNEL in Keys(map[], Assignments(p.text))
    && Names(pub.tree, Keys(map[], Assignments(p.text))[KERNEL])
    && [AUTO_CFG] in pub.tree && pub.tree[[AUTO_CFG]].text == p.text
    && [MANUAL_CFG] in pub.tree && pub.tree[[MANUAL_CFG]].text == p.text
  }

  /** The boot.cfg that is published is a file of the tree. */
  lemma CfgIsListed(t: Tree, listing: seq<Path>, site: Site)
    requires AllIn(t, listing) && PublishTree(t, listing, site).result.Ok?
    ensures Pool(listing, BOOT_CFG) != [] && Pick(Pool(listing, BOOT_CFG)) in t
  {
    hide Pool, Pick, PublishTree, BOOT_CFG, WithAlias;
    PublishSteps(t, listing, site);
    var cfg := Pick(Pool(listing, BOOT_CFG));
    PickIsLeast(Pool(listing, BOOT_CFG));
    PoolMeans(listing, BOOT_CFG, cfg);
  }

  /** End to end: whenever the publication of a lower-cased tree succeeds, it is complete. */
  lemma PublishedTree(t: Tree, listing: seq<Path>, site: Site)
    requires GoodTree(t) && AllIn(t, listing) && IsHttpPrefix(FullPrefix(HttpPrefix(site)))
    requires PublishTree(t, listing, site).result.Ok?
    requires
      Pool(listing, BOOT_CFG) != [] && Pick(Pool(listing, BOOT_CFG)) in t ==>
        PlainCfg(t[Pick(Pool(listing, BOOT_CFG))].text)
    ensures Pool(listing, BOOT_CFG) != [] && Pick(Pool(listing, BOOT_CFG)) in t
    ensures IsComplete(t, listing, site, PublishTree(t, listing, site))
  {
    CfgIsListed(t, listing, site);
    hide Pool, Pick, PayloadOf, NormalizePaths, WithAlias, PublishTree, AUTO_CFG, MANUAL_CFG, MBOOT, BOOT_CFG,
         KERNEL, GoodTree, Assignments, Keys, ModuleList, IsHttpPrefix, FullPrefix, PlainCfg,
         LogicalLines, Find, IsCryptoFirst, AllName, PosixParts, AllIn, PREFIX, Keeps, HttpPrefix, ReadsPrefix,
         HasLoader, IsFirstNamed;
    var pub, t1, cfg := PublishTree(t, listing, site), WithAlias(t, listing), Pick(Pool(listing, BOOT_CFG));
    AliasIsGood(t, listing);
    AliasListing(t, listing);
    PublishSteps(t, listing, site);
    var w, text := World(site.root, t1, site.others), pub.result.value.text;
    PayloadIsPublished(w, listing, cfg, HttpPrefix(site));
    NamesKept(t1, pub.tree, pub.result.value.preload);
    NamesKept(t1, pub.tree, ModuleList(Assignments(text)));
    KernelKept(t1, pub.tree, Keys(map[], Assignments(text))[KERNEL]);
    CfgIsFirst(listing);
    LoaderIsLinked(t, listing, site);
  }

  lemma CfgIsFirst(listing: seq<Path>)
    requires Pool(listing, BOOT_CFG) != []
    ensures IsFirstNamed(listing, "boot.cfg", Pick(Pool(listing, BOOT_CFG)))
  {
    PublishFiles.NamesDiffer();
    PublishFiles.NewNames();
    hide BOOT_CFG, Pool, Pick, IsFirstNamed;
    PickIsFirstNamed(listing, BOOT_CFG);
  }

  /** From the extracted tree, in whatever case its names are: whenever the whole step succeeds,
      both boot files are the same text, and every path they and the preload list name is a
      file of the final tree. */
  lemma ExtractedTree(t: Tree, files: seq<Path>, listing: seq<Path>, site: Site)
    requires NiceTree(t) && IsListing(t, files) && IsHttpPrefix(FullPrefix(HttpPrefix(site)))
    requires Lowered(t, files).Ok? ==> IsListing(Lowered(t, files).value, listing)
    requires ExtractTree(t, files, listing, site).result.Ok?
    ensures Lowered(t, files).Ok?
    ensures
      var low, cfg := Lowered(t, files).value, Pick(Pool(listing, BOOT_CFG));
      Pool(listing, BOOT_CFG) != [] && cfg in low
    ensures
      var low, cfg := Lowered(t, files).value, Pick(Pool(listing, BOOT_CFG));
      var pub := ExtractTree(t, files, listing, site);
      PlainCfg(low[cfg].text) ==> IsComplete(low, listing, site, pub)
  {
    hide Pool, Pick, PublishTree, AUTO_CFG, MANUAL_CFG, BOOT_CFG, NiceTree, GoodTree, IsHttpPrefix, FullPrefix,
         PlainCfg, IsComplete, Lowered;
    assert AllIn(t, files);
    LoweredIsGood(t, files);
    var low := Lowered(t, files).value;
    CfgIsListed(low, listing, site);
    var cfg := Pick(Pool(listing, BOOT_CFG));
    if PlainCfg(low[cfg].text) {
      PublishedTree(low, listing, site);
    }
  }

  lemma KernelKept(t: Tree, later: Tree, path: string)
    requires Names(t, path) && Keeps(t, later)
    ensures Names(later, path)
  {
    hide PosixParts;
  }

  lemma AliasListing(t: Tree, listing: seq<Path>)
    requires AllIn(t, listing)
    ensures AllIn(WithAlias(t, listing), listing)
  {
    hide CryptoOf;
  }
}
