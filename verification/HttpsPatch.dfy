/** Enabling HTTPS in iPXE's `general.h`: `#undef` lines go, a commented `#define` comes back,
    or a new one is put after the HTTP one. */
module HttpsPatch {
  import opened Text
  import opened Url
  import opened Kernelopt

  predicate IsBlankChar(c: char) { c == ' ' || c == '\t' }

  const HTTP := "DOWNLOAD_PROTO_HTTP"
  const HTTPS := "DOWNLOAD_PROTO_HTTPS"
  const DEFINE_WORD := "#define"
  const UNDEF_WORD := "#undef"
  const REMARK := "\t\t/* Secure Hypertext Transfer Protocol */"

  /** The line the patch writes. */
  const DEFINE := DEFINE_WORD + (" " + (HTTPS + REMARK))

  /** What follows the name in `word name…`, blanks allowed before and required between. */
  function Directive(line: string, word: string, name: string): Option<string> {
    var s := TrimLeft(IsBlankChar, line);
    if !StartsWith(s, word) then None
    else
      var r := s[|word|..];
      if r == "" || !IsBlankChar(r[0]) || !StartsWith(TrimLeft(IsBlankChar, r), name) then None
      else Some(TrimLeft(IsBlankChar, r)[|name|..])
  }

  /** The name ends there: `\b`. */
  predicate IsWhole(rest: Option<string>) { rest.Some? && (rest.value == "" || !IsWord(rest.value[0])) }

  predicate IsUndef(line: string) { Directive(line, UNDEF_WORD, HTTPS).Some? }

  predicate IsExactUndef(line: string) { IsWhole(Directive(line, UNDEF_WORD, HTTPS)) }

  predicate IsDefine(line: string) { IsWhole(Directive(line, DEFINE_WORD, HTTPS)) }

  predicate IsHttpDefine(line: string) { IsWhole(Directive(line, DEFINE_WORD, HTTP)) }

  predicate IsCommented(line: string) {
    var s := TrimLeft(IsBlankChar, line);
    StartsWith(s, "//") && Directive(s[2..], DEFINE_WORD, HTTPS).Some?
  }

  // ---- The patch --------------------------------------------------------

  /** The file: its complete lines, and what follows the last line break. */
  datatype Header = Header(lines: seq<string>, tail: string)

  datatype PatchError = NoPlace | UndefLeft

  function WithoutUndef(lines: seq<string>): seq<string> {
    if lines == [] then []
    else (if IsUndef(lines[0]) then [] else [lines[0]]) + WithoutUndef(lines[1..])
  }

  function Uncommented(lines: seq<string>): seq<string> {
    if lines == [] then []
    else if IsCommented(lines[0]) then [DEFINE] + lines[1..]
    else [lines[0]] + Uncommented(lines[1..])
  }

  predicate AnyDefine(h: Header) {
    IsDefine(h.tail) || exists i :: 0 <= i < |h.lines| && IsDefine(h.lines[i])
  }

  predicate AnyHttpDefine(lines: seq<string>) { exists i :: 0 <= i < |lines| && IsHttpDefine(lines[i]) }

  function Inserted(lines: seq<string>): seq<string> {
    if lines == [] then []
    else if IsHttpDefine(lines[0]) then [lines[0], DEFINE] + lines[1..]
    else [lines[0]] + Inserted(lines[1..])
  }

  function Patched(h: Header): Result<Header, PatchError> {
    var g := h.(lines := Uncommented(WithoutUndef(h.lines)));
    if !AnyDefine(g) && !AnyHttpDefine(g.lines) then Err(NoPlace)
    else if IsExactUndef(h.tail) then Err(UndefLeft)
    else Ok(if AnyDefine(g) then g else g.(lines := Inserted(g.lines)))
  }

  method PatchHttpsSupport(h: Header) returns (r: Result<Header, PatchError>, removed: nat, restored: bool)
    ensures r == Patched(h)
    ensures removed == |h.lines| - |WithoutUndef(h.lines)|
    ensures restored <==> exists i :: 0 <= i < |h.lines| && IsCommented(h.lines[i])
  {
    hide Directive, IsCommented, IsUndef, IsDefine, IsHttpDefine, IsExactUndef;
    var g := h;
    var kept := WithoutUndef(g.lines);
    WithoutUndefShorter(g.lines);
    removed := |g.lines| - |kept|;
    restored := exists i :: 0 <= i < |kept| && IsCommented(kept[i]);
    CommentedKept(h.lines);
    g := g.(lines := Uncommented(kept));
    var hasDefine := AnyDefine(g);
    if !hasDefine {
      if !AnyHttpDefine(g.lines) {
        return Err(NoPlace), removed, restored;
      }
      g := g.(lines := Inserted(g.lines));
    }
    if IsExactUndef(g.tail) {
      return Err(UndefLeft), removed, restored;
    }
    r := Ok(g);
  }

  // ---- Kinds of lines ---------------------------------------------------

  lemma DefineParts()
    ensures Directive(DEFINE, DEFINE_WORD, HTTPS) == Some(REMARK)
  {
    var rest := HTTPS + REMARK;
    assert DEFINE_WORD[0] == '#' && HTTPS[0] == 'D' && |DEFINE_WORD| == 7 && |HTTPS| == 20;
    hide DEFINE_WORD, HTTPS, REMARK;
    EmptyBlank();
    BlankHead("", DEFINE);
    assert "" + DEFINE == DEFINE;
    assert DEFINE[|DEFINE_WORD|..] == " " + rest;
    BlankHead(" ", rest);
    assert rest[|HTTPS|..] == REMARK && rest[..|HTTPS|] == HTTPS;
  }

  lemma EmptyBlank()
    ensures All(IsBlankChar, "") && All(IsBlankChar, " ")
  {
  }

  lemma BlankHead(a: string, b: string)
    requires All(IsBlankChar, a) && b != "" && !IsBlankChar(b[0])
    ensures TrimLeft(IsBlankChar, a + b) == b
  {
    SpanOf(IsBlankChar, a, b);
  }

  /** The words differ in their first characters, so no line is of two kinds. */
  lemma OneKind(line: string)
    ensures IsCommented(line) ==> !IsUndef(line) && !IsDefine(line) && !IsHttpDefine(line)
    ensures IsDefine(line) ==> !IsUndef(line)
    ensures IsExactUndef(line) ==> IsUndef(line)
  {
    assert DEFINE_WORD[0] == '#' && UNDEF_WORD[0] == '#' && DEFINE_WORD[1] == 'd' && UNDEF_WORD[1] == 'u';
    assert |DEFINE_WORD| == 7 && |UNDEF_WORD| == 6 && "//"[0] == '/';
    hide DEFINE_WORD, UNDEF_WORD, HTTP, HTTPS;
    var s := TrimLeft(IsBlankChar, line);
    hide TrimLeft;
    assert StartsWith(s, "//") ==> s[0] == '/';
    assert StartsWith(s, DEFINE_WORD) ==> s[0] == '#' && s[1] == 'd';
    assert StartsWith(s, UNDEF_WORD) ==> s[0] == '#' && s[1] == 'u';
  }

  lemma DefineIsDefine()
    ensures IsDefine(DEFINE) && !IsUndef(DEFINE) && !IsCommented(DEFINE)
  {
    DefineParts();
    assert REMARK[0] == '\t' && !IsWord('\t') && REMARK != "";
    hide Directive, DEFINE, REMARK, IsUndef, IsCommented;
    assert IsDefine(DEFINE);
    hide IsDefine;
    OneKind(DEFINE);
  }

  // ---- Laws -------------------------------------------------------------

  lemma {:induction false} WithoutUndefShorter(lines: seq<string>)
    ensures |WithoutUndef(lines)| <= |lines|
    ensures forall i :: 0 <= i < |WithoutUndef(lines)| ==> !IsUndef(WithoutUndef(lines)[i])
  {
    hide IsUndef;
    if lines != [] { WithoutUndefShorter(lines[1..]); }
  }

  /** How many lines are a commented `#define`. */
  function Commented(lines: seq<string>): nat {
    if lines == [] then 0 else (if IsCommented(lines[0]) then 1 else 0) + Commented(lines[1..])
  }

  lemma {:induction false} CommentedNone(lines: seq<string>)
    ensures Commented(lines) == 0 <==> forall i :: 0 <= i < |lines| ==> !IsCommented(lines[i])
  {
    hide IsCommented;
    if lines != [] {
      CommentedNone(lines[1..]);
      assert forall i :: 1 <= i < |lines| ==> lines[i] == lines[1..][i - 1];
    }
  }

  lemma {:induction false} CommentedCount(lines: seq<string>)
    ensures Commented(WithoutUndef(lines)) == Commented(lines)
    ensures Commented(Uncommented(lines)) == if Commented(lines) == 0 then 0 else Commented(lines) - 1
    ensures Commented(Inserted(lines)) == Commented(lines)
    ensures Uncommented(lines) == lines <==> Commented(lines) == 0
  {
    DefineIsDefine();
    hide IsCommented, IsUndef, IsDefine, IsHttpDefine, DEFINE, IsExactUndef;
    if lines != [] {
      var first, rest := lines[0], lines[1..];
      assert lines == [first] + rest;
      OneKind(first);
      CommentedCount(rest);
      assert ([DEFINE] + rest)[1..] == rest && ([first] + Uncommented(rest))[1..] == Uncommented(rest);
      assert ([first] + Inserted(rest))[1..] == Inserted(rest);
      assert ([first, DEFINE] + rest)[1..] == [DEFINE] + rest;
      if !IsUndef(first) { assert ([first] + WithoutUndef(rest))[1..] == WithoutUndef(rest); }
      else { assert [] + WithoutUndef(rest) == WithoutUndef(rest); }
    }
  }

  lemma CommentedKept(lines: seq<string>)
    ensures (exists i :: 0 <= i < |WithoutUndef(lines)| && IsCommented(WithoutUndef(lines)[i])) <==>
            (exists i :: 0 <= i < |lines| && IsCommented(lines[i]))
  {
    hide IsCommented, WithoutUndef, Commented;
    CommentedCount(lines);
    CommentedNone(lines);
    CommentedNone(WithoutUndef(lines));
  }

  predicate NoUndef(lines: seq<string>) { forall i :: 0 <= i < |lines| ==> !IsUndef(lines[i]) }

  lemma {:induction false} StaysNoUndef(lines: seq<string>)
    requires NoUndef(lines)
    ensures NoUndef(Uncommented(lines)) && NoUndef(Inserted(lines)) && WithoutUndef(lines) == lines
  {
    DefineIsDefine();
    hide IsCommented, IsUndef, IsDefine, IsHttpDefine, DEFINE;
    if lines != [] { StaysNoUndef(lines[1..]); }
  }

  lemma {:induction false} InsertedHas(lines: seq<string>)
    requires AnyHttpDefine(lines)
    ensures exists i :: 0 <= i < |Inserted(lines)| && Inserted(lines)[i] == DEFINE
  {
    hide IsHttpDefine, DEFINE;
    if IsHttpDefine(lines[0]) {
      assert Inserted(lines)[1] == DEFINE;
    } else {
      assert AnyHttpDefine(lines[1..]);
      InsertedHas(lines[1..]);
      var i :| 0 <= i < |Inserted(lines[1..])| && Inserted(lines[1..])[i] == DEFINE;
      assert Inserted(lines)[i + 1] == DEFINE;
    }
  }

  // ---- Reading the patched file -----------------------------------------

  /** Whether HTTPS is defined after reading the lines in order. */
  function Reads(lines: seq<string>, before: bool): bool
    decreases |lines|
  {
    if lines == [] then before
    else Reads(lines[1..], if IsDefine(lines[0]) then true else if IsExactUndef(lines[0]) then false else before)
  }

  lemma {:induction false} ReadsDefined(lines: seq<string>, before: bool)
    requires forall i :: 0 <= i < |lines| ==> !IsExactUndef(lines[i])
    ensures Reads(lines, before) <==> before || exists i :: 0 <= i < |lines| && IsDefine(lines[i])
    decreases |lines|
  {
    hide IsDefine, IsExactUndef;
    if lines != [] {
      ReadsDefined(lines[1..], before || IsDefine(lines[0]));
      assert forall i :: 1 <= i < |lines| ==> lines[i] == lines[1..][i - 1];
    }
  }

  lemma PatchedParts(h: Header)
    requires Patched(h).Ok?
    ensures
      var p := Patched(h).value;
      && NoUndef(p.lines) && !IsExactUndef(p.tail) && p.tail == h.tail && AnyDefine(p)
      && Commented(p.lines) == if Commented(h.lines) == 0 then 0 else Commented(h.lines) - 1
  {
    hide IsUndef, IsExactUndef, IsDefine, IsHttpDefine, IsCommented, Uncommented, Inserted, WithoutUndef, Commented,
         DEFINE, AnyHttpDefine;
    var kept := WithoutUndef(h.lines);
    WithoutUndefShorter(h.lines);
    StaysNoUndef(kept);
    StaysNoUndef(Uncommented(kept));
    CommentedCount(h.lines);
    CommentedCount(kept);
    CommentedCount(Uncommented(kept));
    var g := h.(lines := Uncommented(kept));
    if !AnyDefine(g) {
      InsertedHas(g.lines);
      DefineIsDefine();
    }
  }

  /** After a patch that succeeds, reading the file in order leaves HTTPS defined. */
  lemma PatchedDefines(h: Header, before: bool)
    requires Patched(h).Ok?
    ensures Reads(Patched(h).value.lines + [Patched(h).value.tail], before)
  {
    PatchedParts(h);
    var p := Patched(h).value;
    hide IsUndef, IsExactUndef, IsDefine, Patched;
    var all := p.lines + [p.tail];
    assert all[|p.lines|] == p.tail;
    forall i | 0 <= i < |all| ensures !IsExactUndef(all[i]) {
      OneKind(all[i]);
    }
    if !IsDefine(p.tail) {
      var i :| 0 <= i < |p.lines| && IsDefine(p.lines[i]);
      assert all[i] == p.lines[i];
    }
    ReadsDefined(all, before);
  }

  /** The patch is a fixed point of itself exactly when at most one `#define` was commented
      out: with more, every further patch brings back another. */
  lemma PatchedTwice(h: Header)
    requires Patched(h).Ok?
    ensures Patched(Patched(h).value) == Patched(h) <==> Commented(h.lines) <= 1
  {
    PatchedParts(h);
    var p := Patched(h).value;
    hide IsUndef, IsExactUndef, IsDefine, IsCommented, IsHttpDefine, Uncommented, WithoutUndef, Inserted, Commented,
         AnyHttpDefine, DEFINE;
    StaysNoUndef(p.lines);
    CommentedCount(p.lines);
    if Commented(p.lines) > 0 {
      UncommentedDefines(p.lines);
      assert Patched(p).Ok? ==> Patched(p).value.lines == Uncommented(p.lines);
    }
  }

  lemma {:induction false} UncommentedDefines(lines: seq<string>)
    requires Commented(lines) > 0
    ensures exists i :: 0 <= i < |Uncommented(lines)| && IsDefine(Uncommented(lines)[i])
  {
    DefineIsDefine();
    hide IsDefine, IsCommented, DEFINE;
    if IsCommented(lines[0]) {
      assert Uncommented(lines)[0] == DEFINE;
    } else {
      UncommentedDefines(lines[1..]);
      var i :| 0 <= i < |Uncommented(lines[1..])| && IsDefine(Uncommented(lines[1..])[i]);
      assert Uncommented(lines)[i + 1] == Uncommented(lines[1..])[i];
    }
  }

  // ---- All other lines --------------------------------------------------

  predicate IsOther(line: string) { !IsUndef(line) && !IsCommented(line) && line != DEFINE }

  function Others(lines: seq<string>): seq<string> {
    if lines == [] then [] else (if IsOther(lines[0]) then [lines[0]] else []) + Others(lines[1..])
  }

  lemma {:induction false} OthersWithoutUndef(lines: seq<string>)
    ensures Others(WithoutUndef(lines)) == Others(lines)
  {
    DefineIsDefine();
    hide IsUndef, IsCommented, IsHttpDefine, IsDefine, DEFINE;
    if lines != [] {
      var first, rest := lines[0], lines[1..];
      OthersWithoutUndef(rest);
      OthersCons(first, WithoutUndef(rest));
      assert [] + WithoutUndef(rest) == WithoutUndef(rest);
    }
  }

  lemma {:induction false} OthersUncommented(lines: seq<string>)
    ensures Others(Uncommented(lines)) == Others(lines)
  {
    DefineIsDefine();
    hide IsUndef, IsCommented, IsHttpDefine, IsDefine, DEFINE;
    if lines != [] {
      var first, rest := lines[0], lines[1..];
      OthersUncommented(rest);
      OthersCons(first, Uncommented(rest));
      OthersCons(DEFINE, rest);
    }
  }

  lemma {:induction false} OthersInserted(lines: seq<string>)
    ensures Others(Inserted(lines)) == Others(lines)
  {
    DefineIsDefine();
    hide IsUndef, IsCommented, IsHttpDefine, IsDefine, DEFINE;
    if lines != [] {
      var first, rest := lines[0], lines[1..];
      OthersInserted(rest);
      OthersCons(first, Inserted(rest));
      OthersCons(DEFINE, rest);
      OthersCons(first, [DEFINE] + rest);
      assert [first, DEFINE] + rest == [first] + ([DEFINE] + rest);
    }
  }

  lemma OthersCons(first: string, rest: seq<string>)
    ensures Others([first] + rest) == (if IsOther(first) then [first] else []) + Others(rest)
  {
    hide IsOther;
    assert ([first] + rest)[1..] == rest;
  }

  /** What no part of the patch removes or adds: commented `#define` lines included. */
  function Staying(lines: seq<string>): seq<string> {
    if lines == [] then []
    else (if IsUndef(lines[0]) || lines[0] == DEFINE then [] else [lines[0]]) + Staying(lines[1..])
  }

  /** The first commented `#define` goes. */
  function FirstGone(lines: seq<string>): seq<string> {
    if lines == [] then []
    else if IsCommented(lines[0]) then lines[1..]
    else [lines[0]] + FirstGone(lines[1..])
  }

  lemma StayingCons(first: string, rest: seq<string>)
    ensures Staying([first] + rest) ==
            (if IsUndef(first) || first == DEFINE then [] else [first]) + Staying(rest)
  {
    hide IsUndef, DEFINE;
    assert ([first] + rest)[1..] == rest;
  }

  lemma GoneCons(first: string, rest: seq<string>)
    ensures FirstGone([first] + rest) == if IsCommented(first) then rest else [first] + FirstGone(rest)
  {
    hide IsCommented;
    assert ([first] + rest)[1..] == rest;
  }

  lemma {:induction false} StayingWithoutUndef(lines: seq<string>)
    ensures Staying(WithoutUndef(lines)) == Staying(lines)
  {
    hide IsUndef, DEFINE;
    if lines != [] {
      var first, rest := lines[0], lines[1..];
      StayingWithoutUndef(rest);
      StayingCons(first, WithoutUndef(rest));
      assert [] + WithoutUndef(rest) == WithoutUndef(rest);
    }
  }

  lemma {:induction false} StayingUncommented(lines: seq<string>)
    ensures Staying(Uncommented(lines)) == FirstGone(Staying(lines))
  {
    DefineIsDefine();
    hide IsUndef, IsCommented, IsHttpDefine, IsDefine, DEFINE, IsExactUndef;
    if lines != [] {
      var first, rest := lines[0], lines[1..];
      OneKind(first);
      StayingUncommented(rest);
      StayingCons(first, Uncommented(rest));
      StayingCons(DEFINE, rest);
      GoneCons(first, Staying(rest));
      assert [] + Staying(rest) == Staying(rest) && [] + FirstGone(Staying(rest)) == FirstGone(Staying(rest));
    }
  }

  lemma {:induction false} StayingInserted(lines: seq<string>)
    ensures Staying(Inserted(lines)) == Staying(lines)
  {
    DefineIsDefine();
    hide IsUndef, IsCommented, IsHttpDefine, IsDefine, DEFINE;
    if lines != [] {
      var first, rest := lines[0], lines[1..];
      StayingInserted(rest);
      StayingCons(first, Inserted(rest));
      StayingCons(DEFINE, rest);
      StayingCons(first, [DEFINE] + rest);
      assert [] + Staying(rest) == Staying(rest);
      assert [first, DEFINE] + rest == [first] + ([DEFINE] + rest);
    }
  }

  /** Every other line stays, in order, and so do all commented `#define` lines but the first,
      in their places among them. */
  lemma PatchedKeeps(h: Header)
    requires Patched(h).Ok?
    ensures Others(Patched(h).value.lines) == Others(h.lines) && Patched(h).value.tail == h.tail
    ensures Staying(Patched(h).value.lines) == FirstGone(Staying(h.lines))
  {
    StayingWithoutUndef(h.lines);
    StayingUncommented(WithoutUndef(h.lines));
    StayingInserted(Uncommented(WithoutUndef(h.lines)));
    hide IsUndef, IsCommented, IsHttpDefine, IsDefine, IsExactUndef, Others, WithoutUndef, Uncommented, Inserted, DEFINE,
         Staying, FirstGone;
    OthersWithoutUndef(h.lines);
    OthersUncommented(WithoutUndef(h.lines));
    OthersInserted(Uncommented(WithoutUndef(h.lines)));
  }

  // ---- A file patched twice ---------------------------------------------

  const COMMENTED := "//" + DEFINE

  lemma CommentedIs()
    ensures IsCommented(COMMENTED)
  {
    DefineParts();
    hide DEFINE, Directive;
    assert COMMENTED[0] == '/' && "" + COMMENTED == COMMENTED;
    EmptyBlank();
    BlankHead("", COMMENTED);
    assert |"//"| == 2;
    HeadAndRest("//", DEFINE);
  }

  lemma HeadAndRest(a: string, b: string)
    ensures (a + b)[..|a|] == a && (a + b)[|a|..] == b
  {
  }

  lemma EmptyTail()
    ensures !IsExactUndef("")
  {
    assert |UNDEF_WORD| == 6;
  }

  /** With two commented `#define` lines a second patch changes the file again. */
  lemma TwoCommented()
    ensures
      var h := Header([COMMENTED, COMMENTED], "");
      Patched(h).Ok? && Patched(Patched(h).value) != Patched(h)
  {
    var h := Header([COMMENTED, COMMENTED], "");
    CommentedIs();
    EmptyTail();
    DefineIsDefine();
    hide IsUndef, IsExactUndef, IsDefine, IsCommented, IsHttpDefine, DEFINE, COMMENTED;
    OneKind(COMMENTED);
    var one := [COMMENTED];
    assert one[0] == COMMENTED && one[1..] == [] && h.lines[1..] == one;
    assert WithoutUndef([]) == [] && Commented([]) == 0;
    assert WithoutUndef(one) == one && Commented(one) == 1;
    assert WithoutUndef(h.lines) == [COMMENTED] + one && [COMMENTED] + one == h.lines;
    assert Uncommented(h.lines) == [DEFINE] + one;
    assert ([DEFINE] + one)[0] == DEFINE;
    PatchedTwice(h);
  }
}
