/** Refreshing a boot.cfg that was refreshed before, possibly for another server, gives
    what one refresh gives, exactly when its paths settle in one pass. */
module RefreshLaws {
  import opened Text
  import opened Lines
  import opened ConfigLine
  import opened Kernelopt
  import opened KerneloptTwice
  import opened Kickstart
  import opened KickstartLaws
  import opened Modules
  import opened Refresh

  // ---- Lines as the rewriters write them --------------------------------

  lemma Names()
    ensures IsName(KERNEL) && IsName(MODULES) && IsName(MODULE) && IsName(PREFIX)
    ensures IsName(PREFIX_HTTP) && IsName(KERNELOPT)
  {
    NamesWithPrefix();
  }

  lemma NamesWithPrefix()
    ensures IsName(PREFIX) && IsName(PREFIX_HTTP)
  {
  }

  /** Padding, byte order marks and comments play no part in a written line. */
  lemma WrittenBared(name: string, x: string)
    requires IsName(name) && name[0] != '#' && name[0] != BOM
    ensures Bared(name + "=" + x) == name + "=" + RightTrimmed(x)
    ensures !IsComment(Bared(name + "=" + x)) && Bared(name + "=" + x) != ""
  {
    var line := name + "=" + x;
    assert line[0] == name[0] && !IsSpace(line[0]);
    assert TrimLeft(IsSpace, line) == line;
    TrimRightConcat(name + "=", x);
    HeadTrimmed(name + "=");
    var s := RightTrimmed(line);
    assert s == name + "=" + RightTrimmed(x);
    assert s[0] == name[0] && TrimLeft(IsBom, s) == s;
  }

  lemma HeadTrimmed(head: string)
    requires head != "" && !IsSpace(head[|head| - 1])
    ensures RightTrimmed(head) == head
  {
    assert head + "" == head;
    EmptyAll(IsSpace);
    hide All, IsSpace;
    KeptOf(IsSpace, head, "");
  }

  lemma StripRightTrimmed(x: string)
    ensures Strip(RightTrimmed(x)) == Strip(x)
  {
    var k := Kept(IsSpace, x);
    assert x == x[..k] + x[k..];
    hide All, Trim;
    StripRight(x[..k], x[k..]);
  }

  /** A written line has its own name and no other. */
  lemma WrittenName(name: string, other: string, x: string)
    requires IsName(name) && IsName(other)
    ensures Matches(other, name + "=" + x) <==> name == other
    ensures MatchesIndented(other, name + "=" + x) <==> name == other
  {
    hide Matches, MatchesIndented, IsName, KeyOf, ValueOf;
    var line := name + "=" + x;
    WrittenLine(name, x);
    KeyAgreesIndented(other, line);
    NameHead(name, x);
    KeyAgrees(other, line);
  }

  lemma NameHead(name: string, x: string)
    requires IsName(name)
    ensures LeftTrimmed(name + "=" + x)
  {
    assert (name + "=" + x)[0] == name[0];
  }

  lemma WrittenValue(name: string, x: string)
    requires IsName(name)
    ensures ValueOf(name + "=" + RightTrimmed(x)) == Strip(x)
  {
    hide Matches, MatchesIndented, IsName, KeyOf, ValueOf, RightTrimmed, Strip;
    WrittenLine(name, RightTrimmed(x));
    StripRightTrimmed(x);
  }

  lemma LowerRelStrip(x: string)
    ensures LowerRel(Strip(x)) == LowerRel(x)
  {
    TrimIsBare(IsSpace, x);
    TrimBare(IsSpace, Strip(x));
  }

  lemma LowerRelEmpty(x: string)
    requires Strip(x) == ""
    ensures LowerRel(x) == ""
  {
    hide Strip;
    EmptySlashes();
  }

  lemma EmptySlashes()
    ensures Lower(Trim(IsSlash, Slashed(""))) == ""
  {
  }

  /** Which branch of the normaliser a written line takes. */
  lemma NormalizeWritten(name: string, x: string)
    requires name in [KERNEL, MODULES, MODULE, PREFIX, KERNELOPT]
    ensures NormalizeLine(name + "=" + x) ==
            if name == KERNEL then "kernel=" + LowerRel(x)
            else if name == MODULES then "modules=" + JoinModules(LowerPaths(Segments(Strip(x))))
            else if name == MODULE then "module=" + LowerRel(x)
            else name + "=" + x
  {
    Names();
    assert name[0] != '#' && name[0] != BOM;
    hide IsName, Matches, ValueOf, Strip, RightTrimmed, Bared, LowerRel, Segments, IsComment;
    WrittenBared(name, x);
    WrittenName(name, KERNEL, RightTrimmed(x));
    WrittenName(name, MODULES, RightTrimmed(x));
    WrittenName(name, MODULE, RightTrimmed(x));
    WrittenValue(name, x);
    LowerRelStrip(x);
    if Strip(x) == "" { LowerRelEmpty(x); }
    assert "module=" + "" == "module=";
  }

  // ---- Paths that settle in one pass ------------------------------------

  /** No segment turns empty, unless it is the only one, and none keeps outer space. */
  predicate SettledModules(parts: seq<string>) {
    LowerPaths(parts) == [""] || AllSettled(LowerPaths(parts))
  }

  predicate AllSettled(qs: seq<string>) {
    qs == [] || (qs[0] != "" && Trimmed(qs[0]) && AllSettled(qs[1..]))
  }

  /** The paths of this line are in final form after one normalisation. */
  predicate SettledPaths(line: string) {
    var s := Bared(line);
    if s == "" || IsComment(s) then true
    else if Matches(KERNEL, s) then Trimmed(LowerRel(ValueOf(s)))
    else if Matches(MODULES, s) then SettledModules(Segments(ValueOf(s)))
    else if Matches(MODULE, s) then Trimmed(LowerRel(ValueOf(s)))
    else true
  }

  lemma StripLength(x: string)
    ensures |Strip(x)| <= |x| && (|Strip(x)| == |x| ==> Trimmed(x))
  {
    var a, b := TrimSplit(IsSpace, x);
    TrimIsBare(IsSpace, x);
    hide All, Trim, IsSpace;
    assert |x| == |a| + |Strip(x)| + |b|;
    if |Strip(x)| == |x| {
      assert a == "" && b == "";
      assert "" + Strip(x) + "" == Strip(x);
    }
  }

  lemma LowerRelLength(x: string)
    ensures |LowerRel(x)| <= |Strip(x)|
  {
  }

  lemma LowerRelFixed(v: string)
    ensures LowerRel(LowerRel(v)) == LowerRel(v) <==> Trimmed(LowerRel(v))
  {
    var q := LowerRel(v);
    hide LowerRel, Strip;
    if Trimmed(q) { LowerRelTwice(v); }
    LowerRelLength(q);
    StripLength(q);
  }

  lemma LowerRelNoDashes(p: string)
    requires NoDashes(p)
    ensures NoDashes(LowerRel(p))
  {
    var u := Strip(p);
    var a, b := TrimSplit(IsSpace, p);
    var c, d := TrimSplit(IsSlash, Slashed(u));
    var m := Trim(IsSlash, Slashed(u));
    NoDashesMeans(p);
    NoDashesMeans(Lower(m));
    hide NoDashes, All, Trim;
    forall i: nat ensures !DashesAt(Lower(m), i) {
      assert !DashesAt(p, |a| + |c| + i);
      forall k | 0 <= k < |m| ensures Lower(m)[k] == '-' ==> p[|a| + |c| + k] == '-' {
        assert m[k] == Slashed(u)[|c| + k] == SlashChar(u[|c| + k]);
        assert u[|c| + k] == p[|a| + |c| + k];
      }
    }
  }

  lemma LoweredNoDashes(parts: seq<string>)
    requires AreClean(parts)
    ensures forall i :: 0 <= i < |LowerPaths(parts)| ==> NoDashes(LowerPaths(parts)[i])
  {
    hide NoDashes, LowerRel, Trimmed;
    forall i | 0 <= i < |parts| ensures NoDashes(LowerPaths(parts)[i]) {
      assert IsClean(parts[i]);
      LowerRelNoDashes(parts[i]);
    }
  }

  function TotalLength(parts: seq<string>): nat {
    if parts == [] then 0 else |parts[0]| + TotalLength(parts[1..])
  }

  lemma {:induction false} JoinLength(parts: seq<string>)
    requires parts != []
    ensures |JoinModules(parts)| == TotalLength(parts) + 5 * (|parts| - 1)
  {
    if |parts| == 1 {
      assert parts[1..] == [];
    } else {
      JoinLength(parts[1..]);
    }
  }

  /** What a second pass makes of the segments is never longer, and shorter if one of
      them is not settled. */
  lemma {:induction false} SecondPassLength(qs: seq<string>)
    ensures
      var again := LowerPaths(Pieces(qs));
      && |again| <= |qs| && TotalLength(again) <= TotalLength(qs)
      && (AllSettled(qs) || TotalLength(again) < TotalLength(qs) || |again| < |qs|)
  {
    if qs != [] {
      hide Trimmed, LowerRel, Strip, Pieces, LowerPaths;
      SecondPassLength(qs[1..]);
      SecondPassHead(qs[0], qs[1..]);
      assert qs == [qs[0]] + qs[1..];
    } else {
      assert LowerPaths(Pieces(qs)) == [];
    }
  }

  lemma TotalCons(x: string, xs: seq<string>)
    ensures TotalLength([x] + xs) == |x| + TotalLength(xs)
  {
    assert ([x] + xs)[1..] == xs;
  }

  lemma LowerPathsCons(x: string, xs: seq<string>)
    ensures LowerPaths([x] + xs) == [LowerRel(x)] + LowerPaths(xs)
  {
    hide LowerRel;
  }

  lemma PiecesCons(q: string, rest: seq<string>)
    ensures Pieces([q] + rest) ==
            if Strip(q) == "" then Pieces(rest) else [Strip(q)] + Pieces(rest)
  {
    hide Strip;
    assert ([q] + rest)[1..] == rest;
  }

  lemma SecondPassHead(q: string, rest: seq<string>)
    ensures
      var again, tail := LowerPaths(Pieces([q] + rest)), LowerPaths(Pieces(rest));
      && |again| <= 1 + |tail| && TotalLength(again) <= |q| + TotalLength(tail)
      && (!Trimmed(q) ==> TotalLength(again) < |q| + TotalLength(tail))
      && (q == "" ==> |again| == |tail|)
  {
    StripLength(q);
    LowerRelLength(Strip(q));
    StripStrip(q);
    hide Strip, LowerRel, Trimmed, Pieces, LowerPaths, TotalLength;
    PiecesCons(q, rest);
    if Strip(q) != "" {
      LowerPathsCons(Strip(q), Pieces(rest));
      TotalCons(LowerRel(Strip(q)), LowerPaths(Pieces(rest)));
    }
  }

  lemma StripStrip(q: string)
    ensures Strip(Strip(q)) == Strip(q)
  {
    TrimIsBare(IsSpace, q);
    TrimBare(IsSpace, Strip(q));
  }

  // ---- Normalising a line again -----------------------------------------

  lemma {:induction false} SettledAreClean(qs: seq<string>)
    requires forall i :: 0 <= i < |qs| ==> NoDashes(qs[i])
    requires AllSettled(qs)
    ensures AreClean(qs)
  {
    if qs != [] {
      assert NoDashes(qs[0]);
      hide Trimmed, NoDashes;
      SettledAreClean(qs[1..]);
      assert qs == [qs[0]] + qs[1..];
    }
  }

  /** Segments in final form stay what they are. */
  lemma SettledStay(parts: seq<string>)
    requires AreClean(parts) && AllSettled(LowerPaths(parts))
    ensures LowerPaths(Pieces(LowerPaths(parts))) == LowerPaths(parts)
  {
    var qs := LowerPaths(parts);
    hide LowerRel, NoDashes, Trimmed, AllSettled, Pieces;
    LoweredNoDashes(parts);
    SettledAreClean(qs);
    PiecesOfClean(qs);
    forall i | 0 <= i < |qs| ensures LowerRel(qs[i]) == qs[i] {
      assert IsClean(qs[i]);
      LowerRelFixed(parts[i]);
    }
  }

  lemma ShorterDiffers(again: seq<string>, qs: seq<string>)
    requires |again| <= |qs| && TotalLength(again) <= TotalLength(qs)
    requires TotalLength(again) < TotalLength(qs) || |again| < |qs|
    requires qs != [""] && qs != []
    ensures JoinModules(again) != JoinModules(qs)
  {
    JoinLength(qs);
    if again != [] { JoinLength(again); }
    if |qs| == 1 {
      assert qs[1..] == [] && qs == [qs[0]];
    }
  }

  /** The `modules=` value after one and after two passes. */
  lemma ModulesAgain(parts: seq<string>)
    requires AreClean(parts)
    ensures
      var once := JoinModules(LowerPaths(parts));
      JoinModules(LowerPaths(Segments(Strip(once)))) == once <==> SettledModules(parts)
  {
    var qs := LowerPaths(parts);
    LoweredNoDashes(parts);
    hide LowerRel, NoDashes, Trimmed, AllSettled, Pieces, Segments, Strip, AreClean;
    SegmentsStrip(JoinModules(qs));
    NonEmptyPieces(qs);
    if qs == [""] {
      OneEmpty();
    } else if AllSettled(qs) {
      SettledStay(parts);
    } else {
      SecondPassLength(qs);
      NotSettledNotEmpty(qs);
      ShorterDiffers(LowerPaths(Pieces(qs)), qs);
    }
  }

  lemma NotSettledNotEmpty(qs: seq<string>)
    requires !AllSettled(qs)
    ensures qs != []
  {
  }

  lemma OneEmpty()
    ensures JoinModules(LowerPaths(Pieces([""]))) == JoinModules([""])
  {
    EmptyStrip();
    assert Pieces([""]) == [];
  }

  /** Normalising a line twice is normalising it once exactly when its paths settle. */
  lemma NormalizeAgain(line: string)
    ensures NormalizeLine(NormalizeLine(line)) == NormalizeLine(line) <==> SettledPaths(line)
  {
    var s := Bared(line);
    var v := ValueOf(s);
    hide Bared, Matches, ValueOf, Trimmed, LowerRel, Segments, IsComment, JoinModules, SettledModules,
         Strip;
    assert KERNEL + "=" == "kernel=" && MODULES + "=" == "modules=" && MODULE + "=" == "module=";
    if s == "" {
      EmptyLine();
    } else if IsComment(s) {
      assert NormalizeLine(line) == line;
    } else if Matches(KERNEL, s) {
      NormalizeWritten(KERNEL, LowerRel(v));
      LowerRelFixed(v);
      SameText("kernel=", LowerRel(LowerRel(v)), LowerRel(v));
    } else if Matches(MODULES, s) {
      SegmentsAreClean(v);
      NormalizeWritten(MODULES, JoinModules(LowerPaths(Segments(v))));
      ModulesAgain(Segments(v));
      SameText("modules=", JoinModules(LowerPaths(Segments(Strip(JoinModules(LowerPaths(Segments(v))))))),
               JoinModules(LowerPaths(Segments(v))));
    } else if Matches(MODULE, s) {
      NormalizeWritten(MODULE, LowerRel(v));
      LowerRelFixed(v);
      SameText("module=", LowerRel(LowerRel(v)), LowerRel(v));
      if v == "" { ModuleEmpty(); }
    }
  }

  lemma EmptyLine()
    ensures NormalizeLine("") == ""
  {
    EmptyStrip();
  }

  lemma ModuleEmpty()
    ensures LowerRel("") == "" && Trimmed(LowerRel("")) && NormalizeLine("module=") == "module="
  {
    EmptyStrip();
    LowerRelEmpty("");
    assert "module=" + "" == "module=";
    hide NormalizeLine;
    NormalizeWritten(MODULE, "");
    assert MODULE + "=" + "" == "module=";
  }

  // ---- Key lines pass the normaliser untouched --------------------------

  lemma StripKey(name: string, line: string)
    requires IsName(name) && MatchesIndented(name, line)
    ensures Matches(name, Strip(line))
  {
    var a, b := TrimSplit(IsSpace, line);
    TrimIsBare(IsSpace, line);
    var s := Strip(line);
    assert LeftTrimmed(s);
    hide IsSpace, All, Trim, KeyOf, ValueOf, Matches, MatchesIndented, IsName, LeftTrimmed;
    KeyAgreesIndented(name, line);
    if '=' in s { ReadPadded(a, s, b); } else { PaddedNoEquals(a, s, b); }
    KeyAgrees(name, s);
  }

  lemma HeadChar(word: string, name: string)
    requires Lower(word) == name && name in [KERNELOPT, PREFIX, PREFIX_HTTP]
    ensures word != "" && word[0] != '#' && word[0] != BOM && !IsSpace(word[0])
  {
    assert |word| == |name| && Lower(word)[0] == LowerChar(word[0]) == name[0];
  }

  lemma MatchedHead(name: string, s: string)
    requires IsName(name) && Matches(name, s) && name in [KERNELOPT, PREFIX, PREFIX_HTTP]
    ensures s != "" && s[0] != '#' && s[0] != BOM && LeftTrimmed(s)
  {
    hide IsName, Matches, Lower, All, IsSpace;
    var word, gap, rest := MatchesParts(name, s);
    HeadChar(word, name);
    assert s[0] == word[0];
  }

  lemma KeyLineBared(name: string, line: string)
    requires name in [KERNELOPT, PREFIX, PREFIX_HTTP] && MatchesIndented(name, line)
    ensures Bared(line) != "" && !IsComment(Bared(line)) && LeftTrimmed(Bared(line))
    ensures Matches(name, Bared(line))
  {
    Names();
    hide IsName, Matches, MatchesIndented, Strip;
    StripKey(name, line);
    var s := Strip(line);
    MatchedHead(name, s);
    assert TrimLeft(IsBom, s) == s;
  }

  lemma KeyLineNormal(name: string, line: string)
    requires name in [KERNELOPT, PREFIX, PREFIX_HTTP] && MatchesIndented(name, line)
    ensures NormalizeLine(line) == line && Bared(line) != "" && !IsBlank(line)
  {
    Names();
    hide IsName, Matches, MatchesIndented, IsComment, Bared, ValueOf, IsBlank, LowerRel, Segments;
    KeyLineBared(name, line);
    KeyNotBlank(name, line);
    var s := Bared(line);
    if Matches(KERNEL, s) { MatchesOne(name, KERNEL, s); }
    if Matches(MODULES, s) { MatchesOne(name, MODULES, s); }
    if Matches(MODULE, s) { MatchesOne(name, MODULE, s); }
  }

  lemma KeyNotBlank(name: string, line: string)
    requires IsName(name) && MatchesIndented(name, line)
    ensures !IsBlank(line)
  {
    assert name != "";
    hide IsName, MatchesIndented, TrimRight;
    MatchesRightTrimmed(name, line);
    if IsBlank(line) { EmptyNoMatch(name); }
  }

  lemma OneKey(line: string)
    ensures !(IsKernelopt(line) && IsPrefix(line))
  {
    Names();
    hide IsName, MatchesIndented, KeyOf;
    KeyAgreesIndented(KERNELOPT, line);
    KeyAgreesIndented(PREFIX, line);
    KeyAgreesIndented(PREFIX_HTTP, line);
  }

  // ---- A line normalised twice ------------------------------------------

  lemma LooseRel()
    ensures LowerRel("/ a") == " a" && LowerRel(" a") == "a"
  {
    assert Slashed("/ a") == "/ a" && Slashed("a") == "a" && Lower(" a") == " a" && Lower("a") == "a";
    TrimBare(IsSpace, "/ a");
    assert All(IsSlash, "/") && All(IsSlash, "") && All(IsSpace, " ") && All(IsSpace, "");
    assert "/ a" == "/" + " a" + "" && " a" == " " + "a" + "";
    hide All;
    TrimPadded(IsSlash, "/", " a", "");
    TrimPadded(IsSpace, " ", "a", "");
    TrimBare(IsSlash, "a");
  }

  /** A path whose slashes hide a space: the second pass takes the space away. */
  lemma LoosePathDiffers()
    ensures
      var line := "kernel=/ a";
      NormalizeLine(NormalizeLine(line)) != NormalizeLine(line) && !SettledPaths(line)
  {
    Names();
    LooseRel();
    assert "kernel=/ a" == KERNEL + "=" + "/ a" && "kernel= a" == KERNEL + "=" + " a";
    assert "kernel=" + " a" == "kernel= a" && "kernel=" + "a" == "kernel=a";
    assert |"kernel= a"| == 9 && |"kernel=a"| == 8;
    hide IsName, NormalizeLine, LowerRel, SettledPaths;
    NormalizeWritten(KERNEL, "/ a");
    NormalizeWritten(KERNEL, " a");
    NormalizeAgain("kernel=/ a");
  }
}
