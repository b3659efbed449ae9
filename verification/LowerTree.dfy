/** The directory of an extracted ESXi image and its rebuilding in lower case. */
module LowerTree {
  import opened Text

  /** A path below the version directory, segment by segment. */
  type Path = seq<string>

  /** A file: which one it is (hard links share it) and the text it holds. */
  datatype File = File(inode: nat, text: string)

  /** The files of a directory; its sub-directories are the prefixes of their paths. */
  type Tree = map<Path, File>

  datatype Fault = NotADirectory

  predicate IsDir(t: Tree, d: Path) { exists p :: p in t && d < p }

  predicate Exists(t: Tree, d: Path) { d in t || IsDir(t, d) }

  /** No file stands where a directory is needed. */
  ghost predicate WellFormed(t: Tree) {
    && [] !in t
    && forall p, q :: p in t && q in t ==> !(p < q)
  }

  function LowerPath(p: Path): (r: Path)
    ensures |r| == |p| && forall i :: 0 <= i < |p| ==> r[i] == Lower(p[i])
  {
    seq(|p|, i requires 0 <= i < |p| => Lower(p[i]))
  }

  /** A file stands on the way to dst. */
  predicate Obstructed(t: Tree, dst: Path) {
    exists k :: 0 < k < |dst| && dst[..k] in t
  }

  /** One file of the listing: kept out by anything that already has its name. */
  function Place(t: Tree, dst: Path, file: File): Result<Tree, Fault> {
    if Exists(t, dst) then Ok(t)
    else if Obstructed(t, dst) then Err(NotADirectory)
    else Ok(t[dst := file])
  }

  predicate AllIn(t: Tree, files: seq<Path>) {
    forall i :: 0 <= i < |files| ==> files[i] in t
  }

  /** The files of t, each once. */
  ghost predicate IsListing(t: Tree, files: seq<Path>) {
    && AllIn(t, files)
    && (forall p :: p in t ==> p in files)
    && (forall i, j :: 0 <= i < j < |files| ==> files[i] != files[j])
  }

  /** The lower-cased tree built from the files of a listing, in its order. */
  function Lowered(t: Tree, files: seq<Path>): Result<Tree, Fault>
    requires AllIn(t, files)
  {
    if files == [] then Ok(map[])
    else
      var n := |files| - 1;
      match Lowered(t, files[..n])
      case Err(e) => Err(e)
      case Ok(done) => Place(done, LowerPath(files[n]), t[files[n]])
  }

  class VersionDir {
    var tree: Tree

    constructor (t: Tree)
      ensures tree == t
    {
      tree := t;
    }

    /** Builds the lower-cased tree beside the directory and puts it in its place. On a
        fault the directory is left as it was. */
    method LowerCase(files: seq<Path>) returns (fault: Option<Fault>)
      requires IsListing(tree, files)
      modifies this
      ensures fault.None? ==> Lowered(old(tree), files) == Ok(tree)
      ensures fault.Some? ==> Lowered(old(tree), files) == Err(fault.value) && tree == old(tree)
    {
      hide Place, Lowered;
      LoweredNone(tree, files);
      var tmp: Tree := map[];
      var i := 0;
      while i < |files|
        invariant 0 <= i <= |files| && tree == old(tree)
        invariant AllIn(tree, files[..i]) && Lowered(tree, files[..i]) == Ok(tmp)
      {
        LoweredStep(tree, files, i);
        var dst := LowerPath(files[i]);
        match Place(tmp, dst, tree[files[i]]) {
          case Err(e) =>
            LoweredFails(tree, files, i + 1);
            return Some(e);
          case Ok(next) => tmp := next;
        }
        i := i + 1;
      }
      assert files[..|files|] == files;
      tree := tmp;
      fault := None;
    }
  }

  lemma LoweredNone(t: Tree, files: seq<Path>)
    ensures AllIn(t, files[..0]) && Lowered(t, files[..0]) == Ok(map[])
  {
  }

  lemma LoweredStep(t: Tree, files: seq<Path>, i: nat)
    requires i < |files| && AllIn(t, files)
    ensures AllIn(t, files[..i]) && AllIn(t, files[..i + 1])
    ensures Lowered(t, files[..i + 1]) ==
            match Lowered(t, files[..i])
            case Err(e) => Err(e)
            case Ok(done) => Place(done, LowerPath(files[i]), t[files[i]])
  {
    hide Place;
    assert files[..i + 1][..i] == files[..i];
  }

  lemma {:induction false} LoweredFails(t: Tree, files: seq<Path>, i: nat)
    requires i <= |files| && AllIn(t, files)
    requires AllIn(t, files[..i]) && Lowered(t, files[..i]).Err?
    ensures Lowered(t, files) == Err(Lowered(t, files[..i]).error)
    decreases |files| - i
  {
    hide Place;
    if i == |files| {
      assert files[..i] == files;
    } else {
      LoweredStep(t, files, i);
      LoweredFails(t, files, i + 1);
    }
  }

  // ---- Which source wins ------------------------------------------------

  /** The first file of the listing whose lower-cased path is d or lies below d. */
  function FirstUnder(files: seq<Path>, d: Path): (n: nat)
    ensures n <= |files|
    ensures n < |files| ==> d <= LowerPath(files[n])
    ensures forall i :: 0 <= i < n ==> !(d <= LowerPath(files[i]))
  {
    if files == [] then 0
    else if d <= LowerPath(files[0]) then 0
    else
      var n := FirstUnder(files[1..], d);
      assert forall i :: 1 <= i < n + 1 ==> files[i] == files[1..][i - 1];
      n + 1
  }

  /** d becomes a file: the first file at or below d is at d. */
  predicate BecomesFile(files: seq<Path>, d: Path) {
    var n := FirstUnder(files, d);
    n < |files| && LowerPath(files[n]) == d
  }

  /** A file was put first where p needs a directory. */
  predicate Blocked(files: seq<Path>, p: Path) {
    exists k :: 0 < k < |p| && BecomesFile(files, LowerPath(p)[..k])
  }

  predicate Clashes(files: seq<Path>) {
    exists i :: 0 <= i < |files| && Blocked(files, files[i])
  }

  /** The tree that lower-casing must build. */
  ghost predicate MadeLower(t: Tree, files: seq<Path>, done: Tree)
    requires AllIn(t, files)
  {
    && (forall d :: d in done <==> BecomesFile(files, d))
    && (forall d :: d in done ==> done[d] == t[files[FirstUnder(files, d)]])
  }

  lemma FirstSnoc(files: seq<Path>, p: Path, d: Path)
    ensures
      var n := FirstUnder(files, d);
      FirstUnder(files + [p], d) ==
      if n < |files| then n else if d <= LowerPath(p) then |files| else |files| + 1
  {
    var all := files + [p];
    var m := FirstUnder(all, d);
    assert forall i :: 0 <= i < |files| ==> all[i] == files[i];
    assert all[|files|] == p;
    hide LowerPath;
    var n := FirstUnder(files, d);
    if n < |files| {
      assert !(m < n) && !(n < m);
    }
  }

  lemma BecomesSnoc(files: seq<Path>, p: Path, d: Path)
    ensures BecomesFile(files + [p], d) <==>
            BecomesFile(files, d) || (FirstUnder(files, d) == |files| && LowerPath(p) == d)
  {
    FirstSnoc(files, p, d);
    hide LowerPath;
  }

  /** The first file at or below d is also the first at or below itself. */
  lemma FirstBelow(files: seq<Path>, d: Path, n: nat)
    requires n == FirstUnder(files, d) < |files|
    ensures BecomesFile(files, LowerPath(files[n]))
  {
    hide LowerPath;
    var e := LowerPath(files[n]);
    var m := FirstUnder(files, e);
    assert !(n < m);
    assert m < |files| && e <= LowerPath(files[m]);
    PrefixTrans(d, e, LowerPath(files[m]));
    assert !(m < n);
  }

  lemma PrefixTrans(a: Path, b: Path, c: Path)
    requires a <= b <= c
    ensures a <= c
  {
    assert forall i :: 0 <= i < |a| ==> c[..|a|][i] == b[i];
  }

  /** What is taken in the tree built so far is what an earlier file is at or below. */
  lemma TakenMeans(t: Tree, files: seq<Path>, done: Tree, d: Path)
    requires AllIn(t, files)
    requires MadeLower(t, files, done)
    ensures Exists(done, d) <==> FirstUnder(files, d) < |files|
  {
    hide LowerPath;
    var n := FirstUnder(files, d);
    if n < |files| {
      var e := LowerPath(files[n]);
      assert d <= e;
      FirstBelow(files, d, n);
      assert e in done;
    }
    if Exists(done, d) && d !in done {
      var p :| p in done && d < p;
      assert BecomesFile(files, p);
      assert d <= LowerPath(files[FirstUnder(files, p)]);
    }
  }

  /** Adding a file changes nothing above the paths that are there, nor above itself. */
  lemma BlockedSnoc(files: seq<Path>, p: Path, q: Path)
    requires q == p || q in files
    ensures Blocked(files + [p], q) <==> Blocked(files, q)
  {
    forall k | 0 < k < |q|
      ensures BecomesFile(files + [p], LowerPath(q)[..k]) <==> BecomesFile(files, LowerPath(q)[..k])
    {
      AboveSnoc(files, p, q, k);
    }
    hide BecomesFile, LowerPath;
  }

  lemma AboveSnoc(files: seq<Path>, p: Path, q: Path, k: nat)
    requires (q == p || q in files) && 0 < k < |q|
    ensures BecomesFile(files + [p], LowerPath(q)[..k]) <==> BecomesFile(files, LowerPath(q)[..k])
  {
    var d := LowerPath(q)[..k];
    BecomesSnoc(files, p, d);
    hide LowerPath;
    if q in files {
      var i :| 0 <= i < |files| && files[i] == q;
      assert FirstUnder(files, d) <= i;
    }
  }

  lemma ClashSnoc(files: seq<Path>, p: Path)
    ensures Clashes(files + [p]) <==> Clashes(files) || Blocked(files, p)
  {
    var all := files + [p];
    assert all[|files|] == p;
    assert forall i :: 0 <= i < |files| ==> all[i] == files[i];
    forall i | 0 <= i < |all| ensures Blocked(all, all[i]) <==> Blocked(files, all[i]) {
      BlockedSnoc(files, p, all[i]);
    }
    hide Blocked;
  }

  /** Placing one more file keeps the tree the one that lower-casing must build. */
  lemma PlaceKeeps(t: Tree, files: seq<Path>, p: Path, done: Tree)
    requires p in t && p != [] && AllIn(t, files)
    requires MadeLower(t, files, done) && !Clashes(files)
    ensures
      var r := Place(done, LowerPath(p), t[p]);
      && (r.Ok? <==> !Clashes(files + [p]))
      && (r.Ok? ==> MadeLower(t, files + [p], r.value))
  {
    var dst, all := LowerPath(p), files + [p];
    TakenMeans(t, files, done, dst);
    ClashSnoc(files, p);
    ObstructedMeans(t, files, done, p);
    if FirstUnder(files, dst) < |files| { NoObstacle(files, p); }
    hide LowerPath, BecomesFile, Clashes, Obstructed, Exists, Blocked;
    var r := Place(done, dst, t[p]);
    if r.Ok? {
      hide Place;
      forall d ensures d in r.value <==> BecomesFile(all, d)
        ensures d in r.value ==> r.value[d] == t[all[FirstUnder(all, d)]]
      {
        PlacedAt(t, files, p, done, d);
      }
    }
  }

  lemma ObstructedMeans(t: Tree, files: seq<Path>, done: Tree, p: Path)
    requires AllIn(t, files)
    requires MadeLower(t, files, done)
    ensures Obstructed(done, LowerPath(p)) <==> Blocked(files, p)
  {
    hide BecomesFile, FirstUnder;
    var dst := LowerPath(p);
    if Obstructed(done, dst) {
      var k :| 0 < k < |dst| && dst[..k] in done;
      assert BecomesFile(files, dst[..k]);
    }
    if k :| 0 < k < |p| && BecomesFile(files, dst[..k]) {
      assert dst[..k] in done;
    }
  }

  lemma NoObstacle(files: seq<Path>, p: Path)
    requires !Clashes(files) && FirstUnder(files, LowerPath(p)) < |files|
    ensures !Blocked(files, p)
  {
    var n := FirstUnder(files, LowerPath(p));
    var dst, e := LowerPath(p), LowerPath(files[n]);
    assert !Blocked(files, files[n]);
    hide BecomesFile, FirstUnder, LowerPath, Clashes;
    if k :| 0 < k < |p| && BecomesFile(files, dst[..k]) {
      PrefixCut(dst, e, k);
    }
  }

  lemma PrefixCut(d: Path, e: Path, k: nat)
    requires d <= e && k <= |d|
    ensures e[..k] == d[..k] && |d| <= |e|
  {
  }

  lemma PlacedAt(t: Tree, files: seq<Path>, p: Path, done: Tree, d: Path)
    requires p in t && AllIn(t, files)
    requires MadeLower(t, files, done) && Place(done, LowerPath(p), t[p]).Ok?
    ensures
      var all, next := files + [p], Place(done, LowerPath(p), t[p]).value;
      && (d in next <==> BecomesFile(all, d))
      && (d in next ==> next[d] == t[all[FirstUnder(all, d)]])
  {
    TakenMeans(t, files, done, LowerPath(p));
    BecomesSnoc(files, p, d);
    FirstSnoc(files, p, d);
    hide LowerPath;
  }

  /** Lower-casing fails exactly when a directory is needed where a file was put first, and
      otherwise builds exactly the tree in which, at every path, the first file at or below
      it decides: a file there keeps its content, whatever else maps there is dropped. */
  lemma {:induction false} LoweredExactly(t: Tree, files: seq<Path>)
    requires [] !in t && AllIn(t, files)
    ensures Lowered(t, files).Ok? <==> !Clashes(files)
    ensures Lowered(t, files).Ok? ==> MadeLower(t, files, Lowered(t, files).value)
  {
    if files != [] {
      var n := |files| - 1;
      var front, p := files[..n], files[n];
      assert files == front + [p];
      LoweredExactly(t, front);
      hide MadeLower, Place, Clashes, Blocked;
      ClashSnoc(front, p);
      if Lowered(t, front).Ok? {
        PlaceKeeps(t, front, p, Lowered(t, front).value);
      }
    }
  }

  // ---- Main results -----------------------------------------------------

  /** No file's lower-cased path lies on the way to another's. */
  ghost predicate Separate(t: Tree) {
    forall p, q :: p in t && q in t ==> !(LowerPath(p) < LowerPath(q))
  }

  lemma NothingAbove(t: Tree, files: seq<Path>, q: Path, k: nat)
    requires AllIn(t, files) && Separate(t) && q in t && k < |q|
    ensures !BecomesFile(files, LowerPath(q)[..k])
  {
    hide LowerPath;
    var n := FirstUnder(files, LowerPath(q)[..k]);
    if n < |files| { assert !(LowerPath(files[n]) < LowerPath(q)); }
  }

  lemma SeparateNoClash(t: Tree, files: seq<Path>)
    requires AllIn(t, files) && Separate(t)
    ensures !Clashes(files)
  {
    forall i, k | 0 <= i < |files| && 0 < k < |files[i]|
      ensures !BecomesFile(files, LowerPath(files[i])[..k])
    {
      NothingAbove(t, files, files[i], k);
    }
    hide LowerPath, BecomesFile, Separate;
  }

  /** The first file of the listing whose lower-cased path is d. */
  function FirstAt(files: seq<Path>, d: Path): (n: nat)
    ensures n <= |files|
    ensures n < |files| ==> LowerPath(files[n]) == d
    ensures forall i :: 0 <= i < n ==> LowerPath(files[i]) != d
  {
    if files == [] then 0
    else if LowerPath(files[0]) == d then 0
    else
      var n := FirstAt(files[1..], d);
      assert forall i :: 1 <= i < n + 1 ==> files[i] == files[1..][i - 1];
      n + 1
  }

  lemma FirstUnderIsAt(t: Tree, files: seq<Path>, d: Path)
    requires AllIn(t, files) && Separate(t)
    ensures BecomesFile(files, d) <==> FirstAt(files, d) < |files|
    ensures BecomesFile(files, d) ==> FirstUnder(files, d) == FirstAt(files, d)
  {
    hide LowerPath;
    var m, n := FirstAt(files, d), FirstUnder(files, d);
    if m < |files| {
      assert n <= m;
      assert !(LowerPath(files[m]) < LowerPath(files[n]));
    }
  }

  ghost predicate HasSource(t: Tree, d: Path) { exists p :: p in t && LowerPath(p) == d }

  /** done is the lower-cased image of t, each path holding what its first source held. */
  ghost predicate IsImage(t: Tree, files: seq<Path>, done: Tree)
    requires AllIn(t, files)
  {
    && (forall d :: d in done <==> HasSource(t, d))
    && (forall d :: d in done ==>
          FirstAt(files, d) < |files| && done[d] == t[files[FirstAt(files, d)]])
  }

  lemma ImageAt(t: Tree, files: seq<Path>, done: Tree, d: Path)
    requires IsListing(t, files) && Separate(t) && MadeLower(t, files, done)
    ensures d in done <==> HasSource(t, d)
    ensures d in done ==> FirstAt(files, d) < |files| && done[d] == t[files[FirstAt(files, d)]]
  {
    FirstUnderIsAt(t, files, d);
    hide LowerPath, Separate, BecomesFile;
    if p :| p in t && LowerPath(p) == d {
      assert p in files;
    }
  }

  lemma ImageOf(t: Tree, files: seq<Path>, done: Tree)
    requires IsListing(t, files) && Separate(t) && MadeLower(t, files, done)
    ensures IsImage(t, files, done)
  {
    assert AllIn(t, files);
    hide LowerPath, Separate, BecomesFile, MadeLower, HasSource, IsListing;
    forall d ensures d in done <==> HasSource(t, d)
      ensures d in done ==> FirstAt(files, d) < |files| && done[d] == t[files[FirstAt(files, d)]]
    {
      ImageAt(t, files, done, d);
    }
  }

  /** Without a file/directory clash the result is exactly the lower-cased image, each path
      holding what the first source in the listing held. */
  lemma LoweredImage(t: Tree, files: seq<Path>)
    requires IsListing(t, files) && [] !in t && Separate(t)
    ensures
      var r := Lowered(t, files);
      r.Ok? && IsImage(t, files, r.value)
  {
    hide Separate, Lowered, MadeLower, Clashes, IsImage;
    SeparateNoClash(t, files);
    LoweredExactly(t, files);
    ImageOf(t, files, Lowered(t, files).value);
  }

  /** Only a file that shares its lower-cased path with another can be lost. */
  lemma OnlyCollidingLost(t: Tree, files: seq<Path>, p: Path)
    requires IsListing(t, files) && [] !in t && Separate(t) && p in t
    requires forall q :: q in t && LowerPath(q) == LowerPath(p) ==> q == p
    ensures
      var r := Lowered(t, files);
      r.Ok? && LowerPath(p) in r.value && r.value[LowerPath(p)] == t[p]
  {
    LoweredImage(t, files);
    hide LowerPath, Separate, Lowered;
    var d := LowerPath(p);
    assert HasSource(t, d);
    assert files[FirstAt(files, d)] == p;
  }

  lemma LowerPathTwice(p: Path)
    ensures LowerPath(LowerPath(p)) == LowerPath(p)
  {
    forall i | 0 <= i < |p| ensures Lower(Lower(p[i])) == Lower(p[i]) { LowerTwice(p[i]); }
  }

  /** Every path of t is in lower case. */
  ghost predicate InLowerCase(t: Tree) { forall d :: d in t ==> LowerPath(d) == d }

  /** Every tree that lower-casing builds is a tree in lower case. */
  lemma LoweredIsLower(t: Tree, files: seq<Path>)
    requires AllIn(t, files) && [] !in t && Lowered(t, files).Ok?
    ensures WellFormed(Lowered(t, files).value)
    ensures InLowerCase(Lowered(t, files).value)
  {
    LoweredExactly(t, files);
    var done := Lowered(t, files).value;
    hide LowerPath, Lowered, Clashes;
    forall d | d in done ensures LowerPath(d) == d && d != [] {
      LowerPathTwice(files[FirstUnder(files, d)]);
    }
    forall p, q | p in done && q in done ensures !(p < q) {
      if p < q { BothFiles(files, p, q); }
    }
  }

  lemma BothFiles(files: seq<Path>, p: Path, q: Path)
    requires BecomesFile(files, p) && BecomesFile(files, q) && p < q && p != []
    ensures Clashes(files)
  {
    var n := FirstUnder(files, q);
    hide LowerPath;
    assert LowerPath(files[n])[..|p|] == p;
    assert Blocked(files, files[n]);
  }

  lemma LowerIsSeparate(t: Tree)
    requires WellFormed(t) && InLowerCase(t)
    ensures Separate(t)
  {
    hide LowerPath;
  }

  lemma SelfImage(t: Tree, files: seq<Path>, done: Tree, d: Path)
    requires IsListing(t, files) && InLowerCase(t)
    requires IsImage(t, files, done)
    ensures d in done <==> d in t
    ensures d in done ==> done[d] == t[d]
  {
    hide LowerPath;
    if d in t { assert LowerPath(d) == d; }
    if d in done {
      var p :| p in t && LowerPath(p) == d;
      assert files[FirstAt(files, d)] in t;
    }
  }

  /** A second lower-casing changes nothing, in whatever order it lists the files. */
  lemma LoweredTwice(t: Tree, files: seq<Path>, again: seq<Path>)
    requires AllIn(t, files) && [] !in t && Lowered(t, files).Ok?
    requires IsListing(Lowered(t, files).value, again)
    ensures Lowered(Lowered(t, files).value, again) == Ok(Lowered(t, files).value)
  {
    var done := Lowered(t, files).value;
    LoweredIsLower(t, files);
    LowerIsSeparate(done);
    LoweredImage(done, again);
    hide LowerPath, Lowered, Separate, WellFormed, IsImage, IsListing, InLowerCase, AllIn;
    var twice := Lowered(done, again).value;
    forall d ensures (d in twice <==> d in done) && (d in twice ==> twice[d] == done[d]) {
      SelfImage(done, again, twice, d);
    }
    SameTree(twice, done);
  }

  lemma SameTree(a: Tree, b: Tree)
    requires forall d :: (d in a <==> d in b) && (d in a ==> a[d] == b[d])
    ensures a == b
  {
  }
}
