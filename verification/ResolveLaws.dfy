/** Where a reference of a boot.cfg is looked for, place by place, and which of several files
    it stands for. */
module ResolveLaws {
  import opened Text
  import opened Url
  import opened Kernelopt
  import opened KerneloptTwice
  import opened LowerTree
  import opened Resolve

  // ---- Paths as text ----------------------------------------------------

  predicate NotMark(c: char) { c != '/' && c != '\\' }

  /** A name that stays a segment of its own. */
  predicate IsSegment(s: string) { s != "" && s != "." && All(NotMark, s) }

  predicate AreSegments(p: Path) { forall i :: 0 <= i < |p| ==> IsSegment(p[i]) }

  lemma SegmentSpan(s: string, rest: string)
    requires IsSegment(s) && (rest == "" || rest[0] == '/')
    ensures Span(NotSlash, s + rest) == |s|
  {
    assert forall i :: 0 <= i < |s| ==> NotMark(s[i]);
    assert All(NotSlash, s);
    hide All;
    SpanOf(NotSlash, s, rest);
  }

  lemma PartsLast(s: string)
    requires IsSegment(s)
    ensures PosixParts(s) == [s]
  {
    assert s + "" == s;
    SegmentSpan(s, "");
    hide All;
    assert s[..|s|] == s;
  }

  lemma PartsStep(s: string, rest: string)
    requires IsSegment(s)
    ensures PosixParts(s + "/" + rest) == [s] + PosixParts(rest)
  {
    var x := s + "/" + rest;
    assert x == s + ("/" + rest);
    SegmentSpan(s, "/" + rest);
    assert s != "" && s != ".";
    hide IsSegment;
    assert x[..|s|] == s && x[|s| + 1..] == rest;
  }

  lemma TextCons(p: Path)
    requires p != []
    ensures PosixText(p) == if |p| == 1 then p[0] else p[0] + "/" + PosixText(p[1..])
  {
  }

  /** The segments of a path written as text, with or without more after it. */
  lemma {:induction false} PartsOfText(p: Path)
    requires AreSegments(p) && p != []
    ensures PosixParts(PosixText(p)) == p
  {
    assert IsSegment(p[0]) && AreSegments(p[1..]);
    hide IsSegment, AreSegments, PosixParts, PosixText;
    TextCons(p);
    if |p| == 1 {
      PartsLast(p[0]);
    } else {
      PartsOfText(p[1..]);
      PartsStep(p[0], PosixText(p[1..]));
    }
  }

  lemma {:induction false} PartsAfter(p: Path, rest: string)
    requires AreSegments(p) && p != []
    ensures PosixParts(PosixText(p) + "/" + rest) == p + PosixParts(rest)
  {
    assert IsSegment(p[0]) && AreSegments(p[1..]);
    hide IsSegment, AreSegments, PosixParts, PosixText;
    TextCons(p);
    if |p| == 1 {
      PartsStep(p[0], rest);
      assert p == [p[0]];
    } else {
      var tail := PosixText(p[1..]) + "/" + rest;
      PartsAfter(p[1..], rest);
      MoreText(p[0] + "/", PosixText(p[1..]), rest);
      PartsStep(p[0], tail);
      HeadOf(p, PosixParts(rest));
    }
  }

  lemma HeadOf(p: Path, more: Path)
    requires p != []
    ensures [p[0]] + (p[1..] + more) == p + more
  {
  }

  lemma MoreText(a: string, b: string, c: string)
    ensures a + b + "/" + c == a + (b + "/" + c)
  {
  }

  lemma {:induction false} TextOfConcat(p: Path, q: Path)
    requires p != [] && q != []
    ensures PosixText(p + q) == PosixText(p) + "/" + PosixText(q)
  {
    if |p| == 1 {
      assert (p + q)[1..] == q;
    } else {
      assert (p + q)[1..] == p[1..] + q;
      TextOfConcat(p[1..], q);
    }
  }

  /** One text goes on below another exactly when its path does. */
  lemma TextBelow(q: Path, p: Path)
    requires AreSegments(q) && AreSegments(p) && q != [] && p != []
    ensures StartsWith(PosixText(p), PosixText(q) + "/") <==> q < p
    ensures PosixText(p) == PosixText(q) <==> p == q
  {
    var x, y := PosixText(p), PosixText(q);
    hide AreSegments, PosixParts, PosixText;
    PartsOfText(p);
    PartsOfText(q);
    if StartsWith(x, y + "/") {
      var rest := HeadAndRest(x, y + "/");
      PartsAfter(q, rest);
      assert p == q + PosixParts(rest) && |x| > |y|;
      assert q <= p && q != p;
    }
    if q < p {
      var more := p[|q|..];
      TextOfConcat(q, more);
      assert p == q + more;
      StartsHead(y + "/", PosixText(more));
    }
  }

  lemma HeadAndRest(x: string, head: string) returns (rest: string)
    requires StartsWith(x, head)
    ensures x == head + rest
  {
    rest := x[|head|..];
  }

  lemma StartsHead(head: string, rest: string)
    ensures StartsWith(head + rest, head)
  {
  }

  lemma {:induction false} LowerText(p: Path)
    ensures Lower(PosixText(p)) == PosixText(LowerPath(p))
  {
    if |p| > 1 {
      LowerText(p[1..]);
      assert LowerPath(p)[1..] == LowerPath(p[1..]);
      LowerConcat(p[0] + "/", PosixText(p[1..]));
      LowerConcat(p[0], "/");
      assert Lower("/") == "/";
    }
  }

  lemma LowerSegment(s: string)
    requires IsSegment(s)
    ensures IsSegment(Lower(s))
  {
    var x := Lower(s);
    assert forall i :: 0 <= i < |s| ==> NotMark(s[i]);
    assert x == "." ==> s == ".";
  }

  lemma LowerSegments(p: Path)
    requires AreSegments(p)
    ensures AreSegments(LowerPath(p))
  {
    hide IsSegment, Lower;
    forall i | 0 <= i < |p| ensures IsSegment(LowerPath(p)[i]) { LowerSegment(p[i]); }
  }

  lemma TextMarks(p: Path)
    requires AreSegments(p) && p != []
    ensures Bare(IsSlash, PosixText(p)) && All(NotBackslash, PosixText(p)) && PosixText(p) != ""
  {
    assert All(NotBackslash, "/");
    forall i | 0 <= i < |p| ensures All(NotBackslash, p[i]) {
      assert IsSegment(p[i]);
      assert forall k :: 0 <= k < |p[i]| ==> NotMark(p[i][k]);
    }
    hide All;
    JoinAll(NotBackslash, "/", p);
    TextEnds(p);
  }

  lemma TextEnds(p: Path)
    requires AreSegments(p) && p != []
    ensures Bare(IsSlash, PosixText(p)) && PosixText(p) != ""
  {
    var first, last := p[0], p[|p| - 1];
    assert IsSegment(first) && IsSegment(last);
    assert NotMark(first[0]) && NotMark(last[|last| - 1]);
    hide IsSegment, AreSegments;
    var front := p[..|p| - 1];
    assert p == front + [last];
    if front != [] {
      TextOfConcat(front, [last]);
      assert PosixText(front)[0] == first[0] by { assert front[0] == first; }
    }
  }

  lemma SlashedSame(s: string)
    requires All(NotBackslash, s)
    ensures Slashed(s) == s
  {
    assert forall i :: 0 <= i < |s| ==> NotBackslash(s[i]);
  }

  // ---- The places -------------------------------------------------------

  /** The prefix of a boot.cfg as text: a path with any slashes around it, no white space at
      its ends. */
  predicate IsPrefixText(prefix: string, q: Path) {
    exists m, n :: 0 <= m <= n <= |prefix| && Trimmed(prefix) && PaddedAt(prefix, m, n, q)
  }

  predicate PaddedAt(prefix: string, m: nat, n: nat, q: Path)
    requires m <= n <= |prefix|
  {
    All(IsSlash, prefix[..m]) && prefix[m..n] == PosixText(q) && All(IsSlash, prefix[n..])
  }

  lemma PrefixMeans(prefix: string, q: Path)
    requires IsPrefixText(prefix, q) && AreSegments(q)
    ensures Trim(IsSlash, Slashed(Strip(prefix))) == PosixText(q)
  {
    var m, n :| 0 <= m <= n <= |prefix| && Trimmed(prefix) && PaddedAt(prefix, m, n, q);
    hide AreSegments, Strip;
    TrimBare(IsSpace, prefix);
    assert Strip(prefix) == prefix by { ShowStrip(prefix); }
    var a, b := prefix[..m], prefix[n..];
    assert prefix == a + PosixText(q) + b;
    if q != [] { TextMarks(q); }
    assert Bare(IsSlash, PosixText(q)) && All(NotBackslash, PosixText(q));
    PaddedSlashed(a, PosixText(q), b);
    hide All, Slashed, Trim;
    TrimPadded(IsSlash, a, PosixText(q), b);
  }

  lemma ShowStrip(s: string)
    requires Trim(IsSpace, s) == s
    ensures Strip(s) == s
  {
  }

  lemma PaddedSlashed(a: string, m: string, b: string)
    requires All(IsSlash, a) && All(NotBackslash, m) && All(IsSlash, b)
    ensures Slashed(a + m + b) == a + m + b
  {
    assert forall i :: 0 <= i < |a| ==> IsSlash(a[i]);
    assert forall i :: 0 <= i < |b| ==> IsSlash(b[i]);
    assert forall i :: 0 <= i < |m| ==> NotBackslash(m[i]);
    SlashedConcat(a + m, b);
    SlashedConcat(a, m);
    assert Slashed(a) == a && Slashed(m) == m && Slashed(b) == b;
  }

  lemma SlashedConcat(a: string, b: string)
    ensures Slashed(a + b) == Slashed(a) + Slashed(b)
  {
  }

  /** A reference to path p is looked for beside boot.cfg, below the prefix unless the path
      already leads below it or is the prefix itself, below the prefix by its name alone, at
      the root of the image, beside boot.cfg by its name and at the root by its name. */
  lemma PlacesAre(cfgDir: Path, prefix: string, q: Path, slashes: string, p: Path)
    requires AreSegments(q) && AreSegments(p) && p != []
    requires IsPrefixText(prefix, q) && All(IsSlash, slashes)
    ensures
      var name := [p[|p| - 1]];
      Candidates(cfgDir, prefix, slashes + PosixText(p)) ==
      if q == [] || p == q || LowerPath(q) < LowerPath(p) then [cfgDir + p, p, cfgDir + name, name]
      else [cfgDir + p, q + p, q + name, p, cfgDir + name, name]
  {
    var x := PosixText(p);
    assert PosixText([]) == "";
    hide All, Trim, TrimLeft, Strip, Slashed, PosixParts, PosixText, AreSegments, Lower, LowerPath, StartsWith,
         Candidates, IsPrefixText;
    LeadingSlashes(slashes, p);
    PrefixMeans(prefix, q);
    PartsOfText(p);
    CandidatesFrom(cfgDir, prefix, slashes + x, PosixText(q), x);
    if q != [] {
      TextMarks(q);
      PrefixTests(q, p);
      PartsOfText(q);
    }
  }

  lemma LeadingSlashes(slashes: string, p: Path)
    requires AreSegments(p) && p != [] && All(IsSlash, slashes)
    ensures TrimLeft(IsSlash, slashes + PosixText(p)) == PosixText(p)
  {
    TextMarks(p);
    hide All, PosixText, AreSegments;
    SpanOf(IsSlash, slashes, PosixText(p));
  }

  lemma CandidatesFrom(cfgDir: Path, prefix: string, ref: string, pref: string, rel: string)
    requires Trim(IsSlash, Slashed(Strip(prefix))) == pref && TrimLeft(IsSlash, ref) == rel
    requires PosixParts(rel) != []
    ensures
      var parts := PosixParts(rel);
      var name := [parts[|parts| - 1]];
      Candidates(cfgDir, prefix, ref) ==
      if pref == "" || rel == pref || StartsWith(Lower(rel), Lower(pref) + "/")
      then [cfgDir + parts, parts, cfgDir + name, name]
      else [cfgDir + parts, PosixParts(pref) + parts, PosixParts(pref) + name, parts, cfgDir + name, name]
  {
    hide PosixParts, Lower, StartsWith, Trim, TrimLeft, Strip, Slashed;
  }

  lemma PrefixTests(q: Path, p: Path)
    requires AreSegments(q) && AreSegments(p) && q != [] && p != []
    ensures StartsWith(Lower(PosixText(p)), Lower(PosixText(q)) + "/") <==> LowerPath(q) < LowerPath(p)
    ensures PosixText(p) == PosixText(q) <==> p == q
  {
    TextBelow(q, p);
    LowerSegments(q);
    LowerSegments(p);
    LowerText(q);
    LowerText(p);
    hide AreSegments, PosixText;
    TextBelow(LowerPath(q), LowerPath(p));
  }

  // ---- Which file -------------------------------------------------------

  /** best has fewer segments than p, or as many in no longer a text, or it comes no later by
      code points. */
  ghost predicate NoLater(best: Path, p: Path) {
    && |best| <= |p|
    && (|best| == |p| ==> |PosixText(best)| <= |PosixText(p)|)
    && (|best| == |p| && |PosixText(best)| == |PosixText(p)| ==> NotAfter(PosixText(best), PosixText(p)))
  }

  lemma PickNoLater(paths: seq<Path>)
    requires paths != []
    ensures Pick(paths) in paths && forall p :: p in paths ==> NoLater(Pick(paths), p)
  {
    PickIsFirst(paths);
    hide Pick, PosixText, NotAfter;
  }

  /** The reference names a place that holds a file. */
  ghost predicate AnyInside(w: World, places: seq<Path>) {
    exists c :: c in places && IsFileInside(w, c)
  }

  /** Whichever file a reference stands for: when a place it is looked for at holds a file, it is
      such a place, and every file at one of them is reached by a name that does not come
      earlier; otherwise it is a file of that name, in any case, and none of them comes earlier. */
  lemma ResolvedIsFirst(w: World, cfgDir: Path, prefix: string, ref: string, listing: seq<Path>)
    requires PlainNames(w.tree) && Resolved(w, cfgDir, prefix, ref, listing).Some?
    ensures NormalizeRef(ref).Some? && NormalizeRef(ref).value != ""
    ensures
      var best, r := Resolved(w, cfgDir, prefix, ref, listing).value, NormalizeRef(ref).value;
      var places, name := Candidates(cfgDir, prefix, r), BaseName(NamePart(TrimLeft(IsSlash, r)));
      if AnyInside(w, places) then
        && best in places && IsFileInside(w, best)
        && (forall c :: c in places && IsFileInside(w, c) ==>
              exists f :: f in places && Lexical(w.root, f) == Lexical(w.root, c) && NoLater(best, f))
      else
        && best in listing && Lower(BaseName(best)) == Lower(name)
        && (forall p :: p in listing && Lower(BaseName(p)) == Lower(name) ==> NoLater(best, p))
  {
    hide NormalizeRef, Candidates, Pick, NamePart, TrimLeft, Lower, BaseName, Files, Pool, IsFileInside, NoLater,
         Lexical;
    var r := NormalizeRef(ref).value;
    var places, name := Candidates(cfgDir, prefix, r), BaseName(NamePart(TrimLeft(IsSlash, r)));
    NoFiles(w, places);
    if AnyInside(w, places) {
      BestOfFiles(w, places);
    } else {
      BestOfPool(listing, Lower(name));
    }
  }

  lemma BestOfFiles(w: World, places: seq<Path>)
    requires PlainNames(w.tree) && Files(w, places, {}) != []
    ensures
      var best := Pick(Files(w, places, {}));
      && best in places && IsFileInside(w, best)
      && (forall c :: c in places && IsFileInside(w, c) ==>
            exists f :: f in places && Lexical(w.root, f) == Lexical(w.root, c) && NoLater(best, f))
  {
    hide Pick, Files, IsFileInside, NoLater, Lexical;
    var files := Files(w, places, {});
    PickNoLater(files);
    FilesAreInside(w, places, {}, Pick(files));
    forall c | c in places && IsFileInside(w, c)
      ensures exists f :: f in places && Lexical(w.root, f) == Lexical(w.root, c) && NoLater(Pick(files), f)
    {
      FilesAreAll(w, places, {}, c);
      var f :| f in files && Lexical(w.root, f) == Lexical(w.root, c);
      FilesAreInside(w, places, {}, f);
    }
  }

  lemma BestOfPool(listing: seq<Path>, name: string)
    requires Pool(listing, name) != []
    ensures
      var best := Pick(Pool(listing, name));
      && best in listing && Lower(BaseName(best)) == name
      && (forall p :: p in listing && Lower(BaseName(p)) == name ==> NoLater(best, p))
  {
    hide Pick, Pool, NoLater, Lower, BaseName;
    var pool := Pool(listing, name);
    PickNoLater(pool);
    PoolMeans(listing, name, Pick(pool));
    forall p | p in listing && Lower(BaseName(p)) == name ensures NoLater(Pick(pool), p) {
      PoolMeans(listing, name, p);
    }
  }

  /** The first of all files of a name, in any case. */
  ghost predicate IsFirstNamed(listing: seq<Path>, name: string, p: Path) {
    && p in listing && p != [] && Lower(p[|p| - 1]) == name
    && forall q :: q in listing && q != [] && Lower(q[|q| - 1]) == name ==> NoLater(p, q)
  }

  ghost predicate AnyNamed(listing: seq<Path>, name: string) {
    exists p :: p in listing && p != [] && Lower(p[|p| - 1]) == name
  }

  lemma NamedMeans(p: Path, name: string)
    requires name != ""
    ensures Lower(BaseName(p)) == name <==> p != [] && Lower(p[|p| - 1]) == name
  {
    assert Lower("") == "";
    hide Lower;
  }

  lemma PickIsFirstNamed(listing: seq<Path>, name: string)
    requires name != ""
    ensures Pool(listing, name) != [] <==> AnyNamed(listing, name)
    ensures Pool(listing, name) != [] ==> IsFirstNamed(listing, name, Pick(Pool(listing, name)))
  {
    hide Pick, Pool, NoLater, Lower, BaseName;
    NoPool(listing, name);
    forall p ensures Lower(BaseName(p)) == name <==> p != [] && Lower(p[|p| - 1]) == name {
      NamedMeans(p, name);
    }
    if Pool(listing, name) != [] { BestOfPool(listing, name); }
  }

  // ---- References without a step up -------------------------------------

  predicate NoUps(p: Path) { forall i :: 0 <= i < |p| ==> p[i] != ".." }

  predicate NoneUps(places: seq<Path>) { forall i :: 0 <= i < |places| ==> NoUps(places[i]) }

  /** A place without a step up holds a file exactly when the tree has that path. */
  lemma PlainInside(w: World, c: Path)
    requires PlainNames(w.tree) && NoUps(c)
    ensures IsFileInside(w, c) <==> c in w.tree
    ensures Lexical(w.root, c) == w.root + c
  {
    LexicalPlain(w.root, c);
    assert (w.root + c)[|w.root|..] == c;
    hide Walkable, Lexical;
    if c in w.tree { PlainPresent(w, c); }
  }

  /** Without a step up in the reference, the prefix or the directory of boot.cfg: the file is
      the first of the places that are paths of the tree; when none is, the first file of that
      name, in any case; and there is no answer exactly when there is neither. */
  lemma ResolvedPlainly(w: World, cfgDir: Path, prefix: string, ref: string, listing: seq<Path>, p: Path,
                        places: seq<Path>)
    requires PlainNames(w.tree) && AllIn(w.tree, listing) && NoneUps(places) && p != []
    requires NormalizeRef(ref).Some? && NormalizeRef(ref).value != ""
    requires NamePart(TrimLeft(IsSlash, NormalizeRef(ref).value)) == [p[|p| - 1]] && p[|p| - 1] != ""
    requires Candidates(cfgDir, prefix, NormalizeRef(ref).value) == places
    ensures
      var found, name := Resolved(w, cfgDir, prefix, ref, listing), Lower(p[|p| - 1]);
      if exists c :: c in places && c in w.tree then
        && found.Some? && found.value in places && found.value in w.tree
        && (forall c :: c in places && c in w.tree ==> NoLater(found.value, c))
      else if exists f :: f in listing && Lower(BaseName(f)) == name then
        && found.Some? && found.value in listing && Lower(BaseName(found.value)) == name
        && (forall f :: f in listing && Lower(BaseName(f)) == name ==> NoLater(found.value, f))
      else found.None?
  {
    var found := Resolved(w, cfgDir, prefix, ref, listing);
    assert BaseName([p[|p| - 1]]) == p[|p| - 1];
    hide NormalizeRef, Candidates, NamePart, TrimLeft, Lower, BaseName, IsFileInside, NoLater, Resolved, Lexical,
         NoneUps;
    PlainPlaces(w, places);
    ResolvedMissing(w, cfgDir, prefix, ref, listing);
    if found.Some? {
      ResolvedIsFirst(w, cfgDir, prefix, ref, listing);
      if AnyInside(w, places) {
        forall c | c in places && c in w.tree ensures NoLater(found.value, c) {
          var f :| f in places && Lexical(w.root, f) == Lexical(w.root, c) && NoLater(found.value, f);
          SamePlace(w.root, f, c);
        }
      }
    }
  }

  lemma SamePlace(root: Path, f: Path, c: Path)
    requires root + f == root + c
    ensures f == c
  {
    assert f == (root + f)[|root|..] && c == (root + c)[|root|..];
  }

  lemma PlainPlaces(w: World, places: seq<Path>)
    requires PlainNames(w.tree) && NoneUps(places)
    ensures forall c :: c in places ==> (IsFileInside(w, c) <==> c in w.tree) && Lexical(w.root, c) == w.root + c
  {
    hide IsFileInside, Lexical, NoUps;
    forall c | c in places
      ensures (IsFileInside(w, c) <==> c in w.tree) && Lexical(w.root, c) == w.root + c
    {
      PlainInside(w, c);
    }
  }

  /** The same for a reference to path p and a prefix q, with the places written out. */
  lemma FileOfReference(w: World, cfgDir: Path, prefix: string, q: Path, ref: string, slashes: string, p: Path,
                        listing: seq<Path>)
    requires PlainNames(w.tree) && AllIn(w.tree, listing)
    requires AreSegments(q) && AreSegments(p) && p != [] && NoUps(cfgDir) && NoUps(q) && NoUps(p)
    requires IsPrefixText(prefix, q) && All(IsSlash, slashes)
    requires NormalizeRef(ref) == Some(slashes + PosixText(p))
    ensures
      var name := [p[|p| - 1]];
      var places :=
        if q == [] || p == q || LowerPath(q) < LowerPath(p) then [cfgDir + p, p, cfgDir + name, name]
        else [cfgDir + p, q + p, q + name, p, cfgDir + name, name];
      var found := Resolved(w, cfgDir, prefix, ref, listing);
      if exists c :: c in places && c in w.tree then
        && found.Some? && found.value in places && found.value in w.tree
        && (forall c :: c in places && c in w.tree ==> NoLater(found.value, c))
      else if exists f :: f in listing && Lower(BaseName(f)) == Lower(name[0]) then
        && found.Some? && found.value in listing && Lower(BaseName(found.value)) == Lower(name[0])
        && (forall f :: f in listing && Lower(BaseName(f)) == Lower(name[0]) ==> NoLater(found.value, f))
      else found.None?
  {
    var name := [p[|p| - 1]];
    var places :=
      if q == [] || p == q || LowerPath(q) < LowerPath(p) then [cfgDir + p, p, cfgDir + name, name]
      else [cfgDir + p, q + p, q + name, p, cfgDir + name, name];
    PlacesNoUps(cfgDir, q, p);
    assert IsSegment(p[|p| - 1]);
    NameOfReference(slashes, p);
    PlacesAre(cfgDir, prefix, q, slashes, p);
    hide NormalizeRef, Candidates, NamePart, TrimLeft, Lower, BaseName, NoLater, Resolved, NoneUps, NoUps, All,
         PosixText, AreSegments, IsSegment, IsPrefixText, LowerPath;
    ResolvedPlainly(w, cfgDir, prefix, ref, listing, p, places);
  }

  lemma PlacesNoUps(cfgDir: Path, q: Path, p: Path)
    requires p != [] && NoUps(cfgDir) && NoUps(q) && NoUps(p)
    ensures
      var name := [p[|p| - 1]];
      NoneUps([cfgDir + p, p, cfgDir + name, name])
      && NoneUps([cfgDir + p, q + p, q + name, p, cfgDir + name, name])
  {
    var name := [p[|p| - 1]];
    assert NoUps(name);
    NoUpsConcat(cfgDir, p);
    NoUpsConcat(cfgDir, name);
    NoUpsConcat(q, p);
    NoUpsConcat(q, name);
    hide NoUps;
  }

  lemma NoUpsConcat(a: Path, b: Path)
    requires NoUps(a) && NoUps(b)
    ensures NoUps(a + b)
  {
  }

  lemma NameOfReference(slashes: string, p: Path)
    requires AreSegments(p) && p != [] && All(IsSlash, slashes)
    ensures NamePart(TrimLeft(IsSlash, slashes + PosixText(p))) == [p[|p| - 1]]
    ensures slashes + PosixText(p) != ""
  {
    TextMarks(p);
    hide AreSegments, PosixText, PosixParts, All, TrimLeft;
    LeadingSlashes(slashes, p);
    PartsOfText(p);
  }

  // ---- The forms of a reference -----------------------------------------

  /** White space and then quotes around a reference do not matter, and backslashes are slashes. */
  lemma QuotedReference(a: string, x: string, m: string, y: string, b: string)
    requires All(IsSpace, a) && All(IsSpace, b) && All(IsQuote, x) && All(IsQuote, y)
    requires Trimmed(x + m + y) && Bare(IsQuote, m) && !IsHttp(m) && !IsFileUrl(m)
    ensures NormalizeRef(a + (x + m + y) + b) == Some(Slashed(m))
  {
    hide All, IsHttp, IsFileUrl, Slashed, Trim;
    TrimPadded(IsSpace, a, x + m + y, b);
    TrimPadded(IsQuote, x, m, y);
  }

  /** A web address stands for its decoded path, whatever the server, query and fragment. */
  lemma WebReference(c: Parts)
    requires Url.WellFormed(c) && Trimmed(Unparse(c)) && Bare(IsQuote, Unparse(c))
    ensures NormalizeRef(Unparse(c)) == if BadNetloc(c.netloc) then None else Some(Slashed(Unquote(c.path)))
  {
    hide Url.WellFormed, Slashed, Trim, Unparse, ParseUrl, Unquote, IsHttp, BadNetloc;
    ParseUnparse(c);
    TrimBare(IsSpace, Unparse(c));
    TrimBare(IsQuote, Unparse(c));
  }

  /** So does a `file:` address. */
  lemma FileReference(path: string)
    requires path != "" && path[0] == '/' && All(NotHash, path) && All(NotQuestion, path)
    requires Trimmed("file://" + path) && Bare(IsQuote, "file://" + path)
    ensures NormalizeRef("file://" + path) == Some(Slashed(Unquote(path)))
  {
    var u := "file://" + path;
    FileHead(path);
    TrimBare(IsSpace, u);
    TrimBare(IsQuote, u);
    NetOfPath(path);
    hide All, Slashed, Trim, Unquote, IsHttp, IsFileUrl, Span, Before, TailOf;
    assert u[7..] == path;
    assert FileUrlPath(u) == path;
  }

  lemma NetOfPath(path: string)
    requires path != "" && path[0] == '/' && All(NotHash, path) && All(NotQuestion, path)
    ensures TailOf(path) == path && Before(NotHash, path) == path && Before(NotQuestion, path) == path
    ensures !BadNetloc(Before(NotNetEnd, path))
  {
    assert "" + path == path && path + "" == path;
    EmptyAllNet();
    hide All;
    CutAt(NotNetEnd, "", path);
    CutAt(NotHash, path, "");
    CutAt(NotQuestion, path, "");
  }

  lemma EmptyAllNet()
    ensures All(NotNetEnd, "")
  {
  }

  lemma FileHead(path: string)
    ensures IsFileUrl("file://" + path) && !IsHttp("file://" + path)
  {
    var u := "file://" + path;
    assert Lower(u)[..7] == "file://";
    assert Lower(u)[0] == 'f';
  }
}
