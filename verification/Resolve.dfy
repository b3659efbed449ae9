/** Resolving the references of a boot.cfg to files of the version directory. */
module Resolve {
  import opened Text
  import opened Url
  import opened Kernelopt
  import opened LowerTree

  // ---- References -------------------------------------------------------

  predicate IsQuote(c: char) { c == '"' || c == '\'' }

  predicate IsFileUrl(t: string) { StartsWith(Lower(t), "file://") }

  /** The path of a `file:` URL, without query and fragment. */
  function FileUrlPath(u: string): string
    requires IsFileUrl(u)
  {
    Before(NotQuestion, Before(NotHash, TailOf(u[7..])))
  }

  /** The useful path of a reference; None where `urlparse` raises. */
  function NormalizeRef(ref: string): Option<string> {
    var r := Trim(IsQuote, Strip(ref));
    if IsHttp(r) then
      if BadNetloc(ParseUrl(r).netloc) then None else Some(Slashed(Unquote(ParseUrl(r).path)))
    else if IsFileUrl(r) then
      if BadNetloc(Before(NotNetEnd, r[7..])) then None else Some(Slashed(Unquote(FileUrlPath(r))))
    else Some(Slashed(r))
  }

  /** `PurePosixPath(s).parts` of a relative path: no empty segment and no single dot. */
  function PosixParts(s: string): Path
    decreases |s|
  {
    var n := Span(NotSlash, s);
    (if n == 0 || s[..n] == "." then [] else [s[..n]]) + (if n == |s| then [] else PosixParts(s[n + 1..]))
  }

  /** The last segment as a path of its own: `PurePosixPath(s).name`. */
  function NamePart(s: string): Path {
    var parts := PosixParts(s);
    if parts == [] then [] else [parts[|parts| - 1]]
  }

  /** The places where a reference is looked for, relative to the version directory. */
  function Candidates(cfgDir: Path, prefix: string, ref: string): seq<Path> {
    var pref := Trim(IsSlash, Slashed(Strip(prefix)));
    var rel := TrimLeft(IsSlash, ref);
    [cfgDir + PosixParts(rel)]
    + (if pref != "" && !StartsWith(Lower(rel), Lower(pref) + "/") && rel != pref
       then [PosixParts(pref) + PosixParts(rel), PosixParts(pref) + NamePart(rel)]
       else [])
    + [PosixParts(rel), cfgDir + NamePart(rel), NamePart(rel)]
  }

  // ---- The file system --------------------------------------------------

  /** The version directory, where it stands, and the other directories of the machine. */
  datatype World = World(root: Path, tree: Tree, others: set<Path>)

  function Up(d: Path): Path { if d == [] then [] else d[..|d| - 1] }

  function Enter(d: Path, segment: string): Path { if segment == ".." then Up(d) else d + [segment] }

  /** `resolve()` in a file system without symbolic links. */
  function Lexical(d: Path, parts: Path): Path
    decreases |parts|
  {
    if parts == [] then d else Lexical(Enter(d, parts[0]), parts[1..])
  }

  predicate IsDirAt(w: World, d: Path) {
    if w.root <= d then d == w.root || IsDir(w.tree, d[|w.root|..])
    else d < w.root || d in w.others
  }

  predicate IsFileAt(w: World, p: Path) { w.root <= p && p[|w.root|..] in w.tree }

  /** Every directory on the way exists. */
  predicate Walkable(w: World, d: Path, parts: Path)
    decreases |parts|
  {
    parts == [] || (IsDirAt(w, d) && Walkable(w, Enter(d, parts[0]), parts[1..]))
  }

  /** `exists()` of a path below the version directory. */
  predicate Present(w: World, c: Path) {
    var at := Lexical(w.root, c);
    Walkable(w, w.root, c) && (IsDirAt(w, at) || IsFileAt(w, at))
  }

  /** `is_file()` of a path that resolves inside the version directory. */
  predicate IsFileInside(w: World, c: Path) {
    Walkable(w, w.root, c) && IsFileAt(w, Lexical(w.root, c))
  }

  /** The key under which a candidate counts as already seen. */
  function SeenKey(w: World, c: Path): Path { if Present(w, c) then Lexical(w.root, c) else w.root + c }

  /** The candidates that are files inside the directory, each file once. */
  function Files(w: World, candidates: seq<Path>, seen: set<Path>): seq<Path> {
    if candidates == [] then []
    else
      var c, key := candidates[0], SeenKey(w, candidates[0]);
      if key in seen then Files(w, candidates[1..], seen)
      else (if IsFileInside(w, c) then [c] else []) + Files(w, candidates[1..], seen + {key})
  }

  // ---- The preferred path -----------------------------------------------

  /** Order of strings by code points. */
  predicate StringLess(a: string, b: string) {
    if b == "" then false
    else if a == "" then true
    else if a[0] != b[0] then a[0] < b[0]
    else StringLess(a[1..], b[1..])
  }

  function PosixText(p: Path): string { Join("/", p) }

  /** Shallower first, then shorter, then smaller. */
  predicate Preferred(a: Path, b: Path) {
    var x, y := PosixText(a), PosixText(b);
    |a| < |b| || (|a| == |b| && (|x| < |y| || (|x| == |y| && StringLess(x, y))))
  }

  function Better(best: Path, p: Path): Path { if Preferred(p, best) then p else best }

  /** `min(paths, key=sort_key)`: the first path that no other precedes. */
  function Pick(paths: seq<Path>): Path
    requires paths != []
  {
    var n := |paths| - 1;
    if n == 0 then paths[0] else Better(Pick(paths[..n]), paths[n])
  }

  method PickPreferred(paths: seq<Path>) returns (best: Path)
    requires paths != []
    ensures best == Pick(paths) && best in paths
    ensures forall p :: p in paths ==> |best| <= |p|
    ensures forall p :: p in paths && |p| == |best| ==> |PosixText(best)| <= |PosixText(p)|
    ensures forall p :: p in paths && |p| == |best| && |PosixText(p)| == |PosixText(best)| ==>
                        NotAfter(PosixText(best), PosixText(p))
  {
    PickIsFirst(paths);
    hide Preferred, NotAfter, PosixText;
    best := paths[0];
    var i := 1;
    assert paths[..1] == [paths[0]];
    while i < |paths|
      invariant 1 <= i <= |paths| && best == Pick(paths[..i])
    {
      assert paths[..i + 1][..i] == paths[..i];
      if Preferred(paths[i], best) {
        best := paths[i];
      }
      i := i + 1;
    }
    assert paths[..|paths|] == paths;
  }

  lemma {:induction false} StringLessTrans(a: string, b: string, c: string)
    requires StringLess(a, b) && StringLess(b, c)
    ensures StringLess(a, c)
  {
    if a != "" && a[0] == b[0] == c[0] { StringLessTrans(a[1..], b[1..], c[1..]); }
  }

  lemma PreferredTrans(a: Path, b: Path, c: Path)
    requires Preferred(a, b) && Preferred(b, c)
    ensures Preferred(a, c)
  {
    var x, y, z := PosixText(a), PosixText(b), PosixText(c);
    hide PosixText, StringLess;
    if StringLess(x, y) && StringLess(y, z) { StringLessTrans(x, y, z); }
  }

  /** The picked path is one of them, and no other is preferred to it. */
  lemma {:induction false} PickIsLeast(paths: seq<Path>)
    requires paths != []
    ensures Pick(paths) in paths
    ensures forall p :: p in paths ==> !Preferred(p, Pick(paths))
  {
    var n := |paths| - 1;
    NotSelf(paths[n]);
    hide Preferred;
    if n > 0 {
      PickIsLeast(paths[..n]);
      var best := Pick(paths[..n]);
      assert forall p :: p in paths ==> p == paths[n] || p in paths[..n];
      forall p | p in paths ensures !Preferred(p, Pick(paths)) {
        if Preferred(paths[n], best) && Preferred(p, paths[n]) {
          PreferredTrans(p, paths[n], best);
        }
      }
    }
  }

  /** The same text, or the smaller code point at the first place where the two differ. */
  ghost predicate NotAfter(a: string, b: string) {
    a == b || exists k :: 0 <= k < |a| && k < |b| && a[..k] == b[..k] && a[k] < b[k]
  }

  lemma {:induction false} LessOrNotAfter(a: string, b: string)
    requires |a| == |b|
    ensures StringLess(a, b) || NotAfter(b, a)
  {
    if a != "" && b[0] < a[0] {
      assert b[..0] == a[..0];
    } else if a != "" && a[0] == b[0] {
      LessOrNotAfter(a[1..], b[1..]);
      if !StringLess(a[1..], b[1..]) { NotAfterCons(a[0], b[1..], a[1..]); }
      assert a == [a[0]] + a[1..] && b == [a[0]] + b[1..];
    }
  }

  lemma NotAfterCons(c: char, a: string, b: string)
    requires NotAfter(a, b)
    ensures NotAfter([c] + a, [c] + b)
  {
    if k :| 0 <= k < |a| && k < |b| && a[..k] == b[..k] && a[k] < b[k] {
      var x, y := [c] + a, [c] + b;
      assert x[..k + 1] == [c] + a[..k] && y[..k + 1] == [c] + b[..k];
      assert x[k + 1] < y[k + 1];
    }
  }

  /** The picked path has the fewest segments of all; among those it is shortest as text;
      among those it comes first by code points. */
  lemma PickIsFirst(paths: seq<Path>)
    requires paths != []
    ensures Pick(paths) in paths
    ensures forall p :: p in paths ==> |Pick(paths)| <= |p|
    ensures forall p :: p in paths && |p| == |Pick(paths)| ==>
                        |PosixText(Pick(paths))| <= |PosixText(p)|
    ensures forall p :: p in paths && |p| == |Pick(paths)| && |PosixText(p)| == |PosixText(Pick(paths))| ==>
                        NotAfter(PosixText(Pick(paths)), PosixText(p))
  {
    hide Pick, PosixText, StringLess, NotAfter;
    PickIsLeast(paths);
    var best := Pick(paths);
    forall p | p in paths && |p| == |best| && |PosixText(p)| == |PosixText(best)|
      ensures NotAfter(PosixText(best), PosixText(p))
    {
      LessOrNotAfter(PosixText(p), PosixText(best));
    }
    assert forall p :: p in paths ==> !Preferred(p, best);
  }

  lemma NotSelf(p: Path)
    ensures !Preferred(p, p)
  {
    Irreflexive(PosixText(p));
  }

  lemma {:induction false} Irreflexive(s: string)
    ensures !StringLess(s, s)
  {
    if s != "" { Irreflexive(s[1..]); }
  }

  // ---- The index by name ------------------------------------------------

  function BaseName(p: Path): string { if p == [] then "" else p[|p| - 1] }

  /** The files of a listing whose name is `name` in lower case, in its order. */
  function Pool(listing: seq<Path>, name: string): seq<Path> {
    if listing == [] then []
    else
      var n := |listing| - 1;
      Pool(listing[..n], name) + (if Lower(BaseName(listing[n])) == name then [listing[n]] else [])
  }

  lemma PoolNext(listing: seq<Path>, i: nat, name: string)
    requires i < |listing|
    ensures Pool(listing[..i + 1], name) ==
            Pool(listing[..i], name) + if Lower(BaseName(listing[i])) == name then [listing[i]] else []
  {
    hide Lower, BaseName;
    assert listing[..i + 1][..i] == listing[..i];
  }

  /** The files of the listing under each name they have in lower case. */
  ghost predicate IsIndex(listing: seq<Path>, index: map<string, seq<Path>>) {
    && (forall name :: name in index <==> Pool(listing, name) != [])
    && (forall name :: name in index ==> index[name] == Pool(listing, name))
  }

  lemma IndexNext(listing: seq<Path>, i: nat, index: map<string, seq<Path>>)
    requires i < |listing| && IsIndex(listing[..i], index)
    ensures
      var key := Lower(BaseName(listing[i]));
      IsIndex(listing[..i + 1], index[key := (if key in index then index[key] else []) + [listing[i]]])
  {
    hide Lower, BaseName, Pool;
    forall name
      ensures Pool(listing[..i + 1], name) ==
              Pool(listing[..i], name) + if Lower(BaseName(listing[i])) == name then [listing[i]] else []
    {
      PoolNext(listing, i, name);
    }
  }

  lemma IndexNone(listing: seq<Path>)
    ensures IsIndex(listing[..0], map[])
  {
  }

  method IndexFiles(listing: seq<Path>) returns (index: map<string, seq<Path>>)
    ensures forall name :: name in index <==> Pool(listing, name) != []
    ensures forall name :: name in index ==> index[name] == Pool(listing, name)
  {
    index := map[];
    var i := 0;
    IndexNone(listing);
    while i < |listing|
      invariant 0 <= i <= |listing| && IsIndex(listing[..i], index)
    {
      hide Lower, BaseName, Pool, IsIndex;
      IndexNext(listing, i, index);
      var key := Lower(BaseName(listing[i]));
      index := index[key := (if key in index then index[key] else []) + [listing[i]]];
      i := i + 1;
    }
    assert listing[..|listing|] == listing;
  }

  lemma {:induction false} PoolMeans(listing: seq<Path>, name: string, p: Path)
    ensures p in Pool(listing, name) <==> p in listing && Lower(BaseName(p)) == name
  {
    if listing != [] {
      var n := |listing| - 1;
      PoolMeans(listing[..n], name, p);
      assert listing == listing[..n] + [listing[n]];
    }
  }

  // ---- Resolution -------------------------------------------------------

  /** The file a kernel or module reference stands for. */
  function Resolved(w: World, cfgDir: Path, prefix: string, ref: string, listing: seq<Path>)
    : Option<Path>
  {
    var r := NormalizeRef(ref);
    if r.None? || r.value == "" then None
    else
      var files := Files(w, Candidates(cfgDir, prefix, r.value), {});
      var name := BaseName(NamePart(TrimLeft(IsSlash, r.value)));
      if files != [] then Some(Pick(files))
      else if name == "" || Pool(listing, Lower(name)) == [] then None
      else Some(Pick(Pool(listing, Lower(name))))
  }

  method ResolveFile(w: World, cfgDir: Path, prefix: string, ref: string, listing: seq<Path>,
                     index: map<string, seq<Path>>)
    returns (found: Option<Path>)
    requires forall name :: name in index <==> Pool(listing, name) != []
    requires forall name :: name in index ==> index[name] == Pool(listing, name)
    ensures found == Resolved(w, cfgDir, prefix, ref, listing)
  {
    hide NormalizeRef, Candidates, Pick, NamePart, SeenKey, IsFileInside, TrimLeft, Lower, BaseName;
    var r := NormalizeRef(ref);
    if r.None? || r.value == "" {
      return None;
    }
    var candidates := Candidates(cfgDir, prefix, r.value);
    var seen: set<Path>, files: seq<Path> := {}, [];
    var i := 0;
    assert candidates[0..] == candidates;
    assert [] + Files(w, candidates, {}) == Files(w, candidates, {});
    while i < |candidates|
      invariant 0 <= i <= |candidates|
      invariant files + Files(w, candidates[i..], seen) == Files(w, candidates, {})
    {
      assert candidates[i..][0] == candidates[i] && candidates[i..][1..] == candidates[i + 1..];
      var c := candidates[i];
      var key := SeenKey(w, c);
      i := i + 1;
      if key in seen {
        continue;
      }
      seen := seen + {key};
      if IsFileInside(w, c) {
        Assoc(files, [c], Files(w, candidates[i..], seen));
        files := files + [c];
      } else {
        assert [] + Files(w, candidates[i..], seen) == Files(w, candidates[i..], seen);
      }
    }
    assert files + [] == files;
    if files != [] {
      var best := PickPreferred(files);
      return Some(best);
    }
    var name := BaseName(NamePart(TrimLeft(IsSlash, r.value)));
    if name != "" && Lower(name) in index {
      var best := PickPreferred(index[Lower(name)]);
      return Some(best);
    }
    return None;
  }

  // ---- What resolution finds --------------------------------------------

  /** Where a path below the version directory really is, relative to that directory. */
  function Located(w: World, c: Path): Path
    requires w.root <= Lexical(w.root, c)
  {
    Lexical(w.root, c)[|w.root|..]
  }

  /** Plain names lead straight down. */
  lemma {:induction false} LexicalPlain(d: Path, parts: Path)
    requires forall i :: 0 <= i < |parts| ==> parts[i] != ".."
    ensures Lexical(d, parts) == d + parts
    decreases |parts|
  {
    if parts == [] {
      assert d + parts == d;
    } else {
      LexicalPlain(d + [parts[0]], parts[1..]);
      assert (d + [parts[0]]) + parts[1..] == d + parts;
    }
  }

  ghost predicate PlainNames(t: Tree) {
    forall p, i :: p in t && 0 <= i < |p| ==> p[i] != ".."
  }

  lemma {:induction false} PlainWalkable(w: World, p: Path, k: nat)
    requires PlainNames(w.tree) && p in w.tree && k <= |p|
    ensures Walkable(w, w.root + p[..k], p[k..])
    decreases |p| - k
  {
    if k < |p| {
      var d := w.root + p[..k];
      assert w.root <= d && d[|w.root|..] == p[..k];
      assert d == w.root || p[..k] < p;
      PlainWalkable(w, p, k + 1);
      assert p[k..][0] == p[k] && p[k..][1..] == p[k + 1..];
      assert d + [p[k]] == w.root + p[..k + 1];
    }
  }

  /** A path that names a file of the tree literally is that file. */
  lemma PlainPresent(w: World, p: Path)
    requires PlainNames(w.tree) && p in w.tree
    ensures IsFileInside(w, p) && Lexical(w.root, p) == w.root + p && SeenKey(w, p) == w.root + p
  {
    LexicalPlain(w.root, p);
    PlainWalkable(w, p, 0);
    assert w.root + p[..0] == w.root && p[0..] == p;
    assert (w.root + p)[|w.root|..] == p;
  }

  lemma {:induction false} FilesAreInside(w: World, candidates: seq<Path>, seen: set<Path>, c: Path)
    requires c in Files(w, candidates, seen)
    ensures c in candidates && IsFileInside(w, c)
  {
    var first, rest, key := candidates[0], candidates[1..], SeenKey(w, candidates[0]);
    hide IsFileInside, SeenKey;
    if key in seen {
      FilesAreInside(w, rest, seen, c);
    } else if c != first || !IsFileInside(w, first) {
      FilesAreInside(w, rest, seen + {key}, c);
    }
  }

  lemma SameKey(w: World, first: Path, c: Path)
    requires PlainNames(w.tree) && IsFileInside(w, c) && SeenKey(w, first) == Lexical(w.root, c)
    ensures IsFileInside(w, first) && Lexical(w.root, first) == Lexical(w.root, c)
  {
    if !Present(w, first) {
      assert first == Lexical(w.root, c)[|w.root|..];
      PlainPresent(w, first);
    }
  }

  /** No file among the candidates is passed over: it is kept, or the same file was. */
  lemma {:induction false} FilesAreAll(w: World, candidates: seq<Path>, seen: set<Path>, c: Path)
    requires PlainNames(w.tree)
    requires c in candidates && IsFileInside(w, c) && Lexical(w.root, c) !in seen
    ensures exists f :: f in Files(w, candidates, seen) && Lexical(w.root, f) == Lexical(w.root, c)
  {
    var first, rest, key := candidates[0], candidates[1..], SeenKey(w, candidates[0]);
    assert SeenKey(w, c) == Lexical(w.root, c);
    if key in seen {
      FilesAreAll(w, rest, seen, c);
    } else if key == Lexical(w.root, c) {
      SameKey(w, first, c);
      assert first in Files(w, candidates, seen);
    } else {
      FilesAreAll(w, rest, seen + {key}, c);
      var f :| f in Files(w, rest, seen + {key}) && Lexical(w.root, f) == Lexical(w.root, c);
      assert f in Files(w, candidates, seen);
    }
  }

  /** Whatever a reference resolves to is a file of the version directory. */
  lemma ResolvedIsFile(w: World, cfgDir: Path, prefix: string, ref: string, listing: seq<Path>)
    requires PlainNames(w.tree) && AllIn(w.tree, listing)
    requires Resolved(w, cfgDir, prefix, ref, listing).Some?
    ensures
      var c := Resolved(w, cfgDir, prefix, ref, listing).value;
      w.root <= Lexical(w.root, c) && Located(w, c) in w.tree
  {
    hide NormalizeRef, Candidates, Pick, NamePart, TrimLeft, Lower, BaseName, Files, Pool;
    var r := NormalizeRef(ref).value;
    var c := Resolved(w, cfgDir, prefix, ref, listing).value;
    var candidates := Candidates(cfgDir, prefix, r);
    var files := Files(w, candidates, {});
    if files != [] {
      PickIsLeast(files);
      FilesAreInside(w, candidates, {}, c);
    } else {
      var name := Lower(BaseName(NamePart(TrimLeft(IsSlash, r))));
      PickIsLeast(Pool(listing, name));
      PoolMeans(listing, name, c);
      LexicalPlain(w.root, c);
    }
  }

  /** A reference stays unresolved exactly when it is empty or malformed, or no candidate is
      a file inside the directory and no file at all has its name. */
  lemma ResolvedMissing(w: World, cfgDir: Path, prefix: string, ref: string, listing: seq<Path>)
    requires PlainNames(w.tree)
    ensures
      var r := NormalizeRef(ref);
      Resolved(w, cfgDir, prefix, ref, listing).None? <==>
      (r.None? || r.value == "" ||
       var name := BaseName(NamePart(TrimLeft(IsSlash, r.value)));
       && (forall c :: c in Candidates(cfgDir, prefix, r.value) ==> !IsFileInside(w, c))
       && (name == "" || forall p :: p in listing ==> Lower(BaseName(p)) != Lower(name)))
  {
    hide NormalizeRef, Candidates, Pick, NamePart, TrimLeft, Lower, BaseName, Files, Pool, IsFileInside;
    var r := NormalizeRef(ref);
    if r.Some? && r.value != "" {
      var candidates := Candidates(cfgDir, prefix, r.value);
      var name := Lower(BaseName(NamePart(TrimLeft(IsSlash, r.value))));
      NoFiles(w, candidates);
      NoPool(listing, name);
    }
  }

  lemma NoFiles(w: World, candidates: seq<Path>)
    requires PlainNames(w.tree)
    ensures Files(w, candidates, {}) == [] <==> forall c :: c in candidates ==> !IsFileInside(w, c)
  {
    hide IsFileInside, Files, Lexical;
    var files := Files(w, candidates, {});
    if files != [] {
      assert files[0] in files;
      FilesAreInside(w, candidates, {}, files[0]);
    }
    if c :| c in candidates && IsFileInside(w, c) {
      FilesAreAll(w, candidates, {}, c);
    }
  }

  lemma NoPool(listing: seq<Path>, name: string)
    ensures Pool(listing, name) == [] <==> forall p :: p in listing ==> Lower(BaseName(p)) != name
  {
    hide Pool, Lower, BaseName;
    var pool := Pool(listing, name);
    if pool != [] {
      assert pool[0] in pool;
      PoolMeans(listing, name, pool[0]);
    }
    if p :| p in listing && Lower(BaseName(p)) == name {
      PoolMeans(listing, name, p);
    }
  }
}
