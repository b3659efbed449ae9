/** Which file ends up in which boot slot, place by place of the form. */
module SlotFills {
  import opened Text
  import opened Url
  import opened KernelTokens
  import opened KerneloptTwice
  import opened LowerTree
  import opened Resolve
  import opened ResolveLaws
  import opened SlotPlan

  // ---- The modloop slot -------------------------------------------------

  /** The term has the word in it, or the file's name begins with it, in any case. */
  predicate NamesModloop(term: string, path: string) {
    var name := Lower(NameOf(path));
    Inside(Lower(term), "modloop") || (|name| >= 7 && name[..7] == "modloop")
  }

  lemma ModloopMeans(term: string, path: string)
    ensures IsModloop(term, path) <==> NamesModloop(term, path)
  {
    var t := Lower(term);
    hide Lower, NameOf;
    if i :| 0 <= i <= |t| && StartsWith(t[i..], "modloop") {
      assert t[i..][..7] == t[i..i + 7];
      assert At(t, i, "modloop");
    }
    if k :| 0 <= k <= |t| && At(t, k, "modloop") {
      assert t[k..][..7] == t[k..k + 7];
      assert StartsWith(t[k..], "modloop");
    }
  }

  /** Place i, from the third on, has a file for the modloop slot. */
  predicate Asks(os: SlotPlan.Os, terms: seq<string>, files: seq<Option<string>>, i: nat)
    requires |files| == |terms|
  {
    os == Alpine && 2 <= i < |terms| && files[i].Some? && NamesModloop(terms[i], files[i].value)
  }

  /** The first place below n that does. */
  function FirstAsking(os: SlotPlan.Os, terms: seq<string>, files: seq<Option<string>>, n: nat): (m: Option<nat>)
    requires |files| == |terms| && n <= |terms|
    ensures m.None? ==> forall j: nat :: j < n ==> !Asks(os, terms, files, j)
    ensures m.Some? ==> m.value < n && Asks(os, terms, files, m.value)
                        && forall j: nat :: j < m.value ==> !Asks(os, terms, files, j)
  {
    if n == 0 then None
    else
      var m := FirstAsking(os, terms, files, n - 1);
      if m.None? && Asks(os, terms, files, n - 1) then Some(n - 1) else m
  }

  /** The files from the third place on, below n, with their terms and in their order, but one. */
  function Others(terms: seq<string>, files: seq<Option<string>>, but: Option<nat>, n: nat): seq<Extra>
    requires |files| == |terms| && n <= |terms|
  {
    if n <= 2 then []
    else
      Others(terms, files, but, n - 1)
      + if files[n - 1].None? || but == Some(n - 1) then [] else [Extra(terms[n - 1], files[n - 1].value)]
  }

  /** Slots filled from the first n places: kernel, initrd, the first file that asks for the
      modloop slot, and the others. */
  function Filled(os: SlotPlan.Os, terms: seq<string>, files: seq<Option<string>>, n: nat): Slots
    requires |files| == |terms| && n <= |terms|
  {
    var m := FirstAsking(os, terms, files, n);
    Slots(if n > 0 then files[0] else None, if n > 1 then files[1] else None,
          if m.None? then None else files[m.value], Others(terms, files, m, n))
  }

  lemma {:induction false} OthersBelow(terms: seq<string>, files: seq<Option<string>>, but: nat, n: nat)
    requires |files| == |terms| && n <= |terms| && n <= but
    ensures Others(terms, files, Some(but), n) == Others(terms, files, None, n)
  {
    if n > 2 { OthersBelow(terms, files, but, n - 1); }
  }

  lemma StepFills(os: SlotPlan.Os, terms: seq<string>, files: seq<Option<string>>, n: nat)
    requires |files| == |terms| && n < |terms|
    ensures ManualStep(os, Filled(os, terms, files, n), n, terms[n], files[n]) == Filled(os, terms, files, n + 1)
  {
    if files[n].Some? { ModloopMeans(terms[n], files[n].value); }
    hide NamesModloop, IsModloop;
    OthersBelow(terms, files, n, n);
    var e := Others(terms, files, FirstAsking(os, terms, files, n), n);
    assert e + [] == e;
  }

  lemma {:induction false} ManualFillsTo(os: SlotPlan.Os, terms: seq<string>, files: seq<Option<string>>, n: nat)
    requires |files| == |terms| && n <= |terms|
    ensures ManualSlots(os, terms[..n], files[..n]) == Filled(os, terms, files, n)
  {
    if n > 0 {
      ManualFillsTo(os, terms, files, n - 1);
      StepFills(os, terms, files, n - 1);
      hide ManualStep, Filled;
      assert terms[..n][..n - 1] == terms[..n - 1] && files[..n][..n - 1] == files[..n - 1];
    }
  }

  /** Uploaded by hand: the first file is the kernel, the second the initrd, on Alpine the first
      later one that asks for it the modloop, and every other one an extra under its term. */
  lemma ManualFills(os: SlotPlan.Os, terms: seq<string>, files: seq<Option<string>>)
    requires |files| == |terms|
    ensures
      var s, m := ManualSlots(os, terms, files), FirstAsking(os, terms, files, |terms|);
      && s.kernel == (if |files| > 0 then files[0] else None)
      && s.initrd == (if |files| > 1 then files[1] else None)
      && s.modloop == (if m.None? then None else files[m.value])
      && s.extras == Others(terms, files, m, |terms|)
  {
    hide ManualSlots, FirstAsking, Others;
    assert terms[..|terms|] == terms && files[..|files|] == files;
    ManualFillsTo(os, terms, files, |terms|);
  }

  /** From the plan: the same, but a second file that Proxmox takes for a kernel is no initrd: it
      is the kernel when there is none, and otherwise the first of the extras. */
  lemma PlanFills(os: SlotPlan.Os, terms: seq<string>, files: seq<Option<string>>)
    requires |files| == |terms|
    ensures
      var s, m := PlanSlots(os, terms, files), FirstAsking(os, terms, files, |terms|);
      var others := Others(terms, files, m, |terms|);
      && s.modloop == (if m.None? then None else files[m.value])
      && if !SecondKernel(os, files) then
           && s.kernel == (if |files| > 0 then files[0] else None)
           && s.initrd == (if |files| > 1 then files[1] else None)
           && s.extras == others
         else
           && s.kernel == (if files[0].Some? then files[0] else files[1])
           && s.initrd == None
           && s.extras == (if files[0].Some? then [Extra(terms[1], files[1].value)] else []) + others
  {
    hide PlanSlots, ManualSlots, FirstAsking, Others;
    if SecondKernel(os, files) {
      assert terms[..|terms|] == terms && files[..|files|] == files;
      SecondFillsTo(os, terms, files, |terms|);
    } else {
      RoutingsAgree(os, terms, files);
      ManualFills(os, terms, files);
    }
  }

  /** The slots with the second file moved. */
  function Moved(s: Slots, terms: seq<string>, files: seq<Option<string>>): Slots
    requires |files| == |terms| > 1 && files[1].Some?
  {
    Slots(if files[0].Some? then files[0] else files[1], None, s.modloop,
          (if files[0].Some? then [Extra(terms[1], files[1].value)] else []) + s.extras)
  }

  lemma {:induction false} SecondFillsTo(os: SlotPlan.Os, terms: seq<string>, files: seq<Option<string>>, n: nat)
    requires |files| == |terms| && 2 <= n <= |terms| && SecondKernel(os, files)
    ensures PlanSlots(os, terms[..n], files[..n]) == Moved(Filled(os, terms, files, n), terms, files)
  {
    PlanSnoc(os, terms, files, n);
    if n == 2 {
      SecondStarts(os, terms, files);
    } else {
      SecondFillsTo(os, terms, files, n - 1);
      StepFills(os, terms, files, n - 1);
      hide PlanSlots, Filled, IsModloop, NameOf, EXTRA_KERNELS;
      var s := Filled(os, terms, files, n - 1);
      if files[n - 1].Some? {
        Assoc(if files[0].Some? then [Extra(terms[1], files[1].value)] else [], s.extras,
              [Extra(terms[n - 1], files[n - 1].value)]);
      }
    }
  }

  lemma PlanSnoc(os: SlotPlan.Os, terms: seq<string>, files: seq<Option<string>>, n: nat)
    requires |files| == |terms| && 0 < n <= |terms|
    ensures PlanSlots(os, terms[..n], files[..n]) ==
            PlanStep(os, PlanSlots(os, terms[..n - 1], files[..n - 1]), n - 1, terms[n - 1], files[n - 1])
  {
    hide PlanStep;
    assert terms[..n][..n - 1] == terms[..n - 1] && files[..n][..n - 1] == files[..n - 1];
  }

  lemma SecondStarts(os: SlotPlan.Os, terms: seq<string>, files: seq<Option<string>>)
    requires |files| == |terms| > 1 && SecondKernel(os, files)
    ensures PlanSlots(os, terms[..2], files[..2]) == Moved(Filled(os, terms, files, 2), terms, files)
  {
    PlanSnoc(os, terms, files, 1);
    PlanSnoc(os, terms, files, 2);
    assert terms[..0] == [] && files[..0] == [];
    hide IsModloop, NameOf, NamesModloop;
    assert FirstAsking(os, terms, files, 2) == None;
    assert Filled(os, terms, files, 2) == Slots(files[0], files[1], None, []);
  }

  // ---- The file of an entry ---------------------------------------------

  /** The file of an entry by name: there is one exactly when something was copied under that very
      name, and it is the first copy, below the version's directory, with forward slashes. */
  lemma EntryFile(base: string, report: map<string, seq<string>>, specs: seq<Spec>, i: nat)
    requires i < |specs|
    ensures
      var file, name := SpecFiles(base, report, specs)[i], TextOf(specs[i]);
      && (file.Some? <==> specs[i].ByName? && Strip(name) != "" && name in report && report[name] != [])
      && (file.Some? ==>
            && |file.value| == |base| + 1 + |report[name][0]|
            && file.value[..|base|] == base && file.value[|base|] == '/'
            && forall k :: 0 <= k < |report[name][0]| ==>
                 file.value[|base| + 1 + k] == if report[name][0][k] == '\\' then '/' else report[name][0][k])
  {
    hide Strip;
  }

  // ---- The lines of the form --------------------------------------------

  lemma NameOfText(p: Path)
    requires AreSegments(p) && p != []
    ensures NameOf(PosixText(p)) == p[|p| - 1]
  {
    hide PosixText, PosixParts, AreSegments;
    PartsOfText(p);
  }

  lemma LineStripped(a: string, x: string, b: string)
    requires All(IsSpace, a) && All(IsSpace, b) && Trimmed(x) && All(NotBackslash, x)
    ensures Slashed(Strip(a + x + b)) == x
  {
    TrimPadded(IsSpace, a, x, b);
    SlashedSame(x);
  }

  /** A line with a path and no wildcard asks for the last segment by name. */
  lemma PathLine(a: string, p: Path, b: string)
    requires All(IsSpace, a) && All(IsSpace, b) && AreSegments(p) && p != []
    requires Trimmed(PosixText(p)) && !IsGlob(PosixText(p)) && Trimmed(p[|p| - 1])
    ensures
      var name, row := p[|p| - 1], RowOf(a + PosixText(p) + b);
      row == Some(Row(name, "")) && SpecOf(row.value) == Some(ByName(name)) && TermOf(row.value) == Some(name)
  {
    var name, x := p[|p| - 1], PosixText(p);
    assert IsSegment(name) && name != "";
    SegmentMarks(name);
    TextMarks(p);
    NameOfText(p);
    NameOfText([name]);
    assert PosixText([name]) == name && AreSegments([name]);
    hide All, PosixText, IsGlob, NameOf, Strip, Slashed, AreSegments, IsSegment;
    LineStripped(a, x, b);
    SlashedSame(name);
    ShowTrimmed(name);
  }

  lemma SegmentMarks(name: string)
    requires IsSegment(name)
    ensures All(NotBackslash, name)
  {
    assert forall i :: 0 <= i < |name| ==> NotMark(name[i]);
  }

  lemma ShowTrimmed(x: string)
    requires Trimmed(x)
    ensures Strip(x) == x && Strip("") == ""
  {
    TrimBare(IsSpace, x);
    TrimBare(IsSpace, "");
  }

  /** A line with a wildcard asks for the whole pattern. */
  lemma GlobLine(a: string, g: string, b: string)
    requires All(IsSpace, a) && All(IsSpace, b) && Trimmed(g) && All(NotBackslash, g) && IsGlob(g)
    ensures
      var row := RowOf(a + g + b);
      row == Some(Row("", g)) && SpecOf(row.value) == Some(ByGlob(g)) && TermOf(row.value) == Some(g)
  {
    assert g != "";
    hide All, IsGlob, NameOf, Strip, Slashed;
    LineStripped(a, g, b);
    ShowTrimmed(g);
  }
}
