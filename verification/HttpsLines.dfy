/** The HTTPS patch line by line: which lines its patterns take, and what stands where in the
    patched file. */
module HttpsLines {
  import opened Text
  import opened Url
  import opened HttpsPatch

  // ---- The patterns -----------------------------------------------------

  predicate Solid(word: string) { word != "" && !IsBlankChar(word[0]) }

  lemma HeadFirst(word: string, rest: string)
    ensures StartsWith(word + rest, word) && (word + rest)[|word|..] == rest
    ensures word != "" ==> (word + rest)[0] == word[0]
  {
  }

  /** A line laid out as blanks, the word, at least one blank and the name is taken, and what
      follows the name is seen. */
  lemma LaidOutIsTaken(a: string, word: string, b: string, name: string, rest: string)
    requires Solid(word) && Solid(name) && All(IsBlankChar, a) && All(IsBlankChar, b) && b != ""
    ensures Directive(a + (word + (b + (name + rest))), word, name) == Some(rest)
  {
    var t := name + rest;
    var r := b + t;
    assert IsBlankChar(b[0]) && r[0] == b[0];
    HeadFirst(word, r);
    HeadFirst(name, rest);
    hide All;
    BlankHead(a, word + r);
    BlankHead(b, t);
  }

  lemma Leading(s: string) returns (blanks: string)
    ensures s == blanks + TrimLeft(IsBlankChar, s) && All(IsBlankChar, blanks)
    ensures s != "" && IsBlankChar(s[0]) ==> blanks != ""
  {
    blanks := s[..Span(IsBlankChar, s)];
  }

  /** No other line is. */
  lemma TakenIsLaidOut(line: string, word: string, name: string) returns (a: string, b: string, rest: string)
    requires Directive(line, word, name).Some?
    ensures line == a + (word + (b + (name + rest))) && All(IsBlankChar, a) && All(IsBlankChar, b) && b != ""
    ensures Directive(line, word, name) == Some(rest)
  {
    hide All;
    a := Leading(line);
    var s := TrimLeft(IsBlankChar, line);
    var r := s[|word|..];
    b := Leading(r);
    hide TrimLeft;
    Parted(s, |word|);
    var t := TrimLeft(IsBlankChar, r);
    rest := t[|name|..];
    Parted(t, |name|);
  }

  // ---- The patched file -------------------------------------------------

  lemma {:induction false} UncommentedAt(lines: seq<string>, c: nat)
    requires c < |lines| && IsCommented(lines[c]) && forall i :: 0 <= i < c ==> !IsCommented(lines[i])
    ensures Uncommented(lines) == lines[..c] + [DEFINE] + lines[c + 1..]
  {
    hide IsCommented, DEFINE;
    if c > 0 {
      UncommentedAt(lines[1..], c - 1);
      assert lines[..c] == [lines[0]] + lines[1..][..c - 1];
      Assoc([lines[0]], lines[1..][..c - 1], [DEFINE]);
      Assoc([lines[0]], lines[1..][..c - 1] + [DEFINE], lines[c + 1..]);
    } else {
      assert [] + [DEFINE] + lines[1..] == [DEFINE] + lines[1..];
    }
  }

  lemma {:induction false} UncommentedNone(lines: seq<string>)
    requires forall i :: 0 <= i < |lines| ==> !IsCommented(lines[i])
    ensures Uncommented(lines) == lines
  {
    hide IsCommented, DEFINE;
    if lines != [] { UncommentedNone(lines[1..]); }
  }

  lemma {:induction false} InsertedAt(lines: seq<string>, d: nat)
    requires d < |lines| && IsHttpDefine(lines[d]) && forall i :: 0 <= i < d ==> !IsHttpDefine(lines[i])
    ensures Inserted(lines) == lines[..d + 1] + [DEFINE] + lines[d + 1..]
  {
    hide IsHttpDefine, DEFINE;
    var more := lines[d + 1..];
    if d > 0 {
      InsertedAt(lines[1..], d - 1);
      assert lines[..d + 1] == [lines[0]] + lines[1..][..d];
      Assoc([lines[0]], lines[1..][..d], [DEFINE]);
      Assoc([lines[0]], lines[1..][..d] + [DEFINE], more);
    } else {
      assert lines[..1] == [lines[0]] && [lines[0]] + [DEFINE] == [lines[0], DEFINE];
    }
  }

  /** Line d is the first that satisfies a pattern. */
  ghost predicate FirstLine(p: string -> bool, lines: seq<string>, d: nat) {
    d < |lines| && p(lines[d]) && forall i :: 0 <= i < d ==> !p(lines[i])
  }

  lemma {:induction false} SomeFirst(p: string -> bool, lines: seq<string>) returns (d: nat)
    requires exists i :: 0 <= i < |lines| && p(lines[i])
    ensures FirstLine(p, lines, d)
  {
    if p(lines[0]) {
      d := 0;
    } else {
      var i :| 0 <= i < |lines| && p(lines[i]);
      assert lines[1..][i - 1] == lines[i];
      var e := SomeFirst(p, lines[1..]);
      d := e + 1;
      assert forall k :: 1 <= k < d ==> lines[k] == lines[1..][k - 1];
    }
  }

  /** The lines of the patched file, the `#undef` lines having gone: the first commented
      `#define` is replaced; if there is none but a `#define` already, nothing changes; otherwise
      the new one stands directly after the first HTTP one; and without that the patch fails. */
  lemma PatchedIs(h: Header)
    ensures
      var kept, r := WithoutUndef(h.lines), Patched(h);
      if exists i :: 0 <= i < |kept| && IsCommented(kept[i]) then
        exists c: nat :: FirstLine(IsCommented, kept, c) &&
          r == if IsExactUndef(h.tail) then Err(UndefLeft)
               else Ok(Header(kept[..c] + [DEFINE] + kept[c + 1..], h.tail))
      else if AnyDefine(Header(kept, h.tail)) then
        r == if IsExactUndef(h.tail) then Err(UndefLeft) else Ok(Header(kept, h.tail))
      else if exists i :: 0 <= i < |kept| && IsHttpDefine(kept[i]) then
        exists d: nat :: FirstLine(IsHttpDefine, kept, d) &&
          r == if IsExactUndef(h.tail) then Err(UndefLeft)
               else Ok(Header(kept[..d + 1] + [DEFINE] + kept[d + 1..], h.tail))
      else r == Err(NoPlace)
  {
    var kept := WithoutUndef(h.lines);
    DefineIsDefine();
    hide IsCommented, IsUndef, IsDefine, IsHttpDefine, IsExactUndef, WithoutUndef, Uncommented, Inserted, DEFINE;
    if exists i :: 0 <= i < |kept| && IsCommented(kept[i]) {
      var c := SomeFirst(IsCommented, kept);
      UncommentedAt(kept, c);
      assert Uncommented(kept)[c] == DEFINE;
    } else {
      UncommentedNone(kept);
      if exists i :: 0 <= i < |kept| && IsHttpDefine(kept[i]) {
        var d := SomeFirst(IsHttpDefine, kept);
        InsertedAt(kept, d);
      }
    }
  }

  /** The `#undef` lines go, wherever they are; all others stay in order. */
  lemma {:induction false} UndefGoes(a: seq<string>, line: string, b: seq<string>)
    ensures WithoutUndef(a + [line] + b) ==
            WithoutUndef(a) + (if IsUndef(line) then [] else [line]) + WithoutUndef(b)
  {
    hide IsUndef;
    if a == [] {
      assert [] + [line] + b == [line] + b && ([line] + b)[1..] == b;
    } else {
      assert (a + [line] + b)[1..] == a[1..] + [line] + b;
      UndefGoes(a[1..], line, b);
      var mid := if IsUndef(line) then [] else [line];
      var first := if IsUndef(a[0]) then [] else [a[0]];
      Assoc(first, WithoutUndef(a[1..]), mid);
      Assoc(first, WithoutUndef(a[1..]) + mid, WithoutUndef(b));
    }
  }
}
