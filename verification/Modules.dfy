/** The `modules=` value of a boot.cfg: segments separated by three dashes. */
module Modules {
  import opened Text

  predicate DashesAt(s: string, i: nat) {
    i + 3 <= |s| && s[i] == '-' && s[i + 1] == '-' && s[i + 2] == '-'
  }

  /** Where the first separator starts, or the length of s. */
  function FindDashes(s: string): (n: nat)
    ensures n <= |s|
    ensures n < |s| ==> DashesAt(s, n)
  {
    if s == "" then 0 else if DashesAt(s, 0) then 0 else 1 + FindDashes(s[1..])
  }

  predicate NoDashes(s: string) { FindDashes(s) == |s| }

  function Piece(s: string): seq<string> { if Strip(s) == "" then [] else [Strip(s)] }

  /** `[p.strip() for p in re.split(r"\s*---\s*", v) if p.strip()]`. */
  function Segments(v: string): seq<string>
    decreases |v|
  {
    var n := FindDashes(v);
    if n == |v| then Piece(v) else Piece(v[..n]) + Segments(v[n + 3..])
  }

  const SEPARATOR := " --- "

  function JoinModules(parts: seq<string>): string { Join(SEPARATOR, parts) }

  /** A path that stands on its own as one segment. */
  predicate IsClean(part: string) { part != "" && Trimmed(part) && NoDashes(part) }

  predicate AreClean(parts: seq<string>) {
    forall i :: 0 <= i < |parts| ==> IsClean(parts[i])
  }

  // ---- Finding the separator --------------------------------------------

  lemma {:induction false} FindFirst(s: string, n: nat)
    requires n <= |s| && (n < |s| ==> DashesAt(s, n))
    requires forall i :: 0 <= i < n ==> !DashesAt(s, i)
    ensures FindDashes(s) == n
    decreases n
  {
    if n > 0 {
      assert !DashesAt(s, 0);
      forall i | 0 <= i < n - 1 ensures !DashesAt(s[1..], i) {
        assert !DashesAt(s, i + 1);
      }
      FindFirst(s[1..], n - 1);
    }
  }

  lemma {:induction false} NoneBefore(s: string, i: nat)
    requires i < FindDashes(s)
    ensures !DashesAt(s, i)
  {
    if i > 0 { NoneBefore(s[1..], i - 1); }
  }

  /** No separator in s, at any index. */
  lemma NoDashesMeans(s: string)
    ensures NoDashes(s) <==> forall i: nat :: !DashesAt(s, i)
  {
    if NoDashes(s) {
      forall i: nat ensures !DashesAt(s, i) {
        if i < |s| { NoneBefore(s, i); }
      }
    }
    assert FindDashes(s) < |s| ==> DashesAt(s, FindDashes(s));
  }

  lemma NoDashesSlice(s: string, i: nat, j: nat)
    requires NoDashes(s) && i <= j <= |s|
    ensures NoDashes(s[i..j])
  {
    NoDashesMeans(s);
    NoDashesMeans(s[i..j]);
    forall k: nat ensures !DashesAt(s[i..j], k) {
      assert !DashesAt(s, i + k);
    }
  }

  /** Dashes never reach across a space. */
  lemma FindAcross(p: string, rest: string)
    requires NoDashes(p)
    ensures FindDashes(p + (SEPARATOR + rest)) == |p| + 1
  {
    var s := p + (SEPARATOR + rest);
    NoDashesMeans(p);
    forall i | 0 <= i < |p| + 1 ensures !DashesAt(s, i) {
      assert !DashesAt(p, i);
      assert s[|p|] == ' ';
    }
    assert DashesAt(s, |p| + 1);
    FindFirst(s, |p| + 1);
  }

  /** One step of the split. */
  lemma SegmentsCut(v: string, n: nat)
    requires FindDashes(v) == n
    ensures n == |v| ==> Segments(v) == Piece(v)
    ensures n < |v| ==> n + 3 <= |v| && Segments(v) == Piece(v[..n]) + Segments(v[n + 3..])
  {
    hide Piece, FindDashes;
  }

  lemma SegmentsAcross(p: string, rest: string)
    requires NoDashes(p)
    ensures Segments(p + (SEPARATOR + rest)) == Piece(p) + Segments(rest)
  {
    hide All, Strip, NoDashes, Segments, FindDashes;
    var s := p + (SEPARATOR + rest);
    FindAcross(p, rest);
    SegmentsCut(s, |p| + 1);
    assert s[..|p| + 1] == p + " " && s[|p| + 4..] == " " + rest;
    SpaceIsSpace();
    SegmentsPadLeft(" ", rest);
    StripRight(p, " ");
  }

  /** Joined segments read back as their stripped, non-empty selves. */
  lemma {:induction false} NonEmptyPieces(parts: seq<string>)
    requires forall i :: 0 <= i < |parts| ==> NoDashes(parts[i])
    ensures Segments(JoinModules(parts)) == Pieces(parts)
  {
    if parts == [] {
      EmptyStrip();
    } else {
      assert NoDashes(parts[0]);
      var rest := JoinModules(parts[1..]);
      NonEmptyPieces(parts[1..]);
      hide Strip, Segments, FindDashes;
      if |parts| == 1 {
        SegmentsCut(parts[0], |parts[0]|);
        assert Piece(parts[0]) + [] == Piece(parts[0]);
      } else {
        Assoc(parts[0], SEPARATOR, rest);
        SegmentsAcross(parts[0], rest);
      }
    }
  }

  lemma EmptyStrip()
    ensures Strip("") == ""
  {
  }

  function Pieces(parts: seq<string>): seq<string> {
    if parts == [] then [] else Piece(parts[0]) + Pieces(parts[1..])
  }

  lemma {:induction false} PiecesOfClean(parts: seq<string>)
    requires AreClean(parts)
    ensures Pieces(parts) == parts
  {
    if parts != [] {
      assert IsClean(parts[0]) && AreClean(parts[1..]);
      hide AreClean, All, NoDashes, Strip, IsSpace;
      PiecesOfClean(parts[1..]);
      CleanPiece(parts[0]);
    }
  }

  lemma CleanPiece(part: string)
    requires IsClean(part)
    ensures Piece(part) == [part]
  {
    TrimBare(IsSpace, part);
  }

  lemma PieceIsClean(s: string)
    requires NoDashes(s) && Piece(s) != []
    ensures IsClean(Piece(s)[0])
  {
    TrimIsBare(IsSpace, s);
    var a, b := TrimSplit(IsSpace, s);
    hide All, Trim, NoDashes;
    var m := Strip(s);
    assert |s| == |a| + |m| + |b|;
    NoDashesSlice(s, |a|, |a| + |m|);
    assert s[|a|..|a| + |m|] == m;
  }

  lemma HeadNoDashes(v: string)
    ensures NoDashes(v[..FindDashes(v)])
  {
    var n := FindDashes(v);
    var head := v[..n];
    NoDashesMeans(head);
    forall i: nat ensures !DashesAt(head, i) {
      if i < n { NoneBefore(v, i); }
    }
  }

  /** Everything the parser reads out of a `modules=` value is clean. */
  lemma {:induction false} SegmentsAreClean(v: string)
    ensures AreClean(Segments(v))
    decreases |v|
  {
    var n := FindDashes(v);
    HeadNoDashes(v);
    hide NoDashes, IsClean, All, Strip, FindDashes, Segments;
    if Piece(v[..n]) != [] { PieceIsClean(v[..n]); }
    SegmentsCut(v, n);
    if n < |v| {
      SegmentsAreClean(v[n + 3..]);
    } else {
      assert v[..n] == v;
    }
  }

  /** Joined paths read back as themselves exactly when each stands on its own. */
  lemma SegmentsOfJoin(parts: seq<string>)
    ensures Segments(JoinModules(parts)) == parts <==> AreClean(parts)
  {
    if AreClean(parts) {
      assert forall i :: 0 <= i < |parts| ==> IsClean(parts[i]);
      NonEmptyPieces(parts);
      PiecesOfClean(parts);
    }
    hide IsClean;
    SegmentsAreClean(JoinModules(parts));
  }

  lemma {:induction false} SegmentsPadLeft(a: string, v: string)
    requires All(IsSpace, a)
    ensures Segments(a + v) == Segments(v)
  {
    if a == "" {
      assert a + v == v;
    } else {
      assert IsSpace(a[0]) && All(IsSpace, a[1..]);
      hide All, Segments, IsSpace;
      var c, rest := a[0], a[1..];
      assert a == [c] + rest;
      SegmentsPadLeft(rest, v);
      Assoc([c], rest, v);
      SegmentsSpaceChar(c, rest + v);
    }
  }

  lemma FindAfterSpaceChar(c: char, v: string)
    requires IsSpace(c)
    ensures FindDashes([c] + v) == 1 + FindDashes(v)
  {
    var s := [c] + v;
    assert s[1..] == v && s[0] == c != '-';
  }

  lemma OneSpace(c: char)
    requires IsSpace(c)
    ensures All(IsSpace, [c])
  {
  }

  lemma ShiftSlices(c: char, v: string, n: nat)
    requires n + 3 <= |v|
    ensures ([c] + v)[..n + 1] == [c] + v[..n] && ([c] + v)[n + 1 + 3..] == v[n + 3..]
  {
  }

  lemma PieceSpace(c: char, x: string)
    requires IsSpace(c)
    ensures Piece([c] + x) == Piece(x)
  {
    OneSpace(c);
    hide All, Strip, IsSpace;
    StripLeft([c], x);
  }

  lemma SegmentsSpaceChar(c: char, v: string)
    requires IsSpace(c)
    ensures Segments([c] + v) == Segments(v)
  {
    var s, n := [c] + v, FindDashes(v);
    hide Segments, FindDashes, IsSpace, Piece;
    FindAfterSpaceChar(c, v);
    SegmentsCut(v, n);
    SegmentsCut(s, n + 1);
    if n == |v| {
      PieceSpace(c, v);
    } else {
      PieceSpace(c, v[..n]);
      ShiftSlices(c, v, n);
    }
  }

  lemma FindPadRight(v: string, b: string)
    requires All(IsSpace, b)
    ensures FindDashes(v + b) == if FindDashes(v) < |v| then FindDashes(v) else |v + b|
  {
    var s, n := v + b, FindDashes(v);
    forall i | 0 <= i < if n < |v| then n else |s| ensures !DashesAt(s, i) {
      if i < |v| && i + 3 <= |v| { NoneBefore(v, i); }
      if |v| <= i + 2 < |s| { assert IsSpace(b[i + 2 - |v|]); }
    }
    FindFirst(s, if n < |v| then n else |s|);
  }

  lemma {:induction false} SegmentsPadRight(v: string, b: string)
    requires All(IsSpace, b)
    ensures Segments(v + b) == Segments(v)
    decreases |v|
  {
    var n := FindDashes(v);
    hide All, Strip, Segments, FindDashes, IsSpace;
    FindPadRight(v, b);
    SegmentsCut(v, n);
    SegmentsCut(v + b, FindDashes(v + b));
    if n < |v| {
      assert (v + b)[..n] == v[..n] && (v + b)[n + 3..] == v[n + 3..] + b;
      SegmentsPadRight(v[n + 3..], b);
    } else {
      StripRight(v, b);
    }
  }

  /** Outer white space does not change the segments. */
  lemma SegmentsStrip(v: string)
    ensures Segments(Strip(v)) == Segments(v)
  {
    var a, b := TrimSplit(IsSpace, v);
    hide All, Trim, Segments, IsSpace;
    SegmentsPadRight(a + Strip(v), b);
    SegmentsPadLeft(a, Strip(v));
  }
}
