/** Filling the boot slots of a Linux system: from the files the extraction plan found, and
    from the files uploaded by hand in the same rows of the form. */
module SlotPlan {
  import opened Text
  import opened Url
  import opened Kernelopt
  import opened Resolve

  // ---- Rows -------------------------------------------------------------

  /** A row of the extraction plan as it is stored. */
  datatype Row = Row(filename: string, pattern: string)

  /** A normalised entry: a file name or a glob. */
  datatype Spec = ByName(name: string) | ByGlob(glob: string)

  predicate IsGlob(s: string) { '*' in s || '?' in s || ('[' in s && ']' in s) }

  /** `PurePosixPath(s).name`. */
  function NameOf(s: string): string { BaseName(NamePart(s)) }

  /** What the form stores for one of its lines, if anything. */
  function RowOf(cell: string): Option<Row> {
    var s := Slashed(Strip(cell));
    if s == "" then None
    else if IsGlob(s) then Some(Row("", s))
    else if NameOf(s) == "" then None
    else Some(Row(NameOf(s), ""))
  }

  /** The entry the extraction uses for a row. */
  function SpecOf(row: Row): Option<Spec> {
    var fname, pat := Strip(row.filename), Strip(row.pattern);
    if fname != "" then
      if NameOf(Slashed(fname)) == "" then None else Some(ByName(NameOf(Slashed(fname))))
    else if pat == "" then None
    else if IsGlob(pat) then Some(ByGlob(pat))
    else if NameOf(pat) == "" then None
    else Some(ByName(NameOf(pat)))
  }

  /** The term the upload form shows for a row. */
  function TermOf(row: Row): Option<string> {
    var fname, pat := Strip(row.filename), Strip(row.pattern);
    if fname != "" then
      if NameOf(Slashed(fname)) == "" then None else Some(NameOf(Slashed(fname)))
    else if pat == "" then None
    else Some(pat)
  }

  function Specs(rows: seq<Row>): seq<Spec> {
    if rows == [] then []
    else (if SpecOf(rows[0]).Some? then [SpecOf(rows[0]).value] else []) + Specs(rows[1..])
  }

  function Terms(rows: seq<Row>): seq<string> {
    if rows == [] then []
    else (if TermOf(rows[0]).Some? then [TermOf(rows[0]).value] else []) + Terms(rows[1..])
  }

  method NormalizeSpecs(rows: seq<Row>) returns (specs: seq<Spec>, terms: seq<string>)
    ensures specs == Specs(rows) && terms == Terms(rows)
  {
    hide SpecOf, TermOf;
    specs, terms := [], [];
    var i := 0;
    assert rows[0..] == rows && [] + Specs(rows) == Specs(rows) && [] + Terms(rows) == Terms(rows);
    while i < |rows|
      invariant 0 <= i <= |rows|
      invariant specs + Specs(rows[i..]) == Specs(rows) && terms + Terms(rows[i..]) == Terms(rows)
    {
      assert rows[i..][0] == rows[i] && rows[i..][1..] == rows[i + 1..];
      var spec, term := SpecOf(rows[i]), TermOf(rows[i]);
      if spec.Some? {
        Assoc(specs, [spec.value], Specs(rows[i + 1..]));
        specs := specs + [spec.value];
      } else {
        assert [] + Specs(rows[i + 1..]) == Specs(rows[i + 1..]);
      }
      if term.Some? {
        Assoc(terms, [term.value], Terms(rows[i + 1..]));
        terms := terms + [term.value];
      } else {
        assert [] + Terms(rows[i + 1..]) == Terms(rows[i + 1..]);
      }
      i := i + 1;
    }
    assert specs + [] == specs && terms + [] == terms;
  }

  /** Both readings of a row give something or neither does. */
  predicate Aligned(row: Row) { SpecOf(row).Some? <==> TermOf(row).Some? }

  /** Entry i of the plan and term i of the form come from the same row exactly when no row
      has a plain pattern without a file name; then their numbers are equal. */
  lemma AlignedMeans(row: Row)
    ensures Aligned(row) <==>
            !(Strip(row.filename) == "" && Strip(row.pattern) != "" && !IsGlob(Strip(row.pattern)) &&
              NameOf(Strip(row.pattern)) == "")
  {
    hide NameOf, Strip;
  }

  lemma {:induction false} FewerSpecs(rows: seq<Row>)
    ensures |Specs(rows)| <= |Terms(rows)|
    ensures |Specs(rows)| == |Terms(rows)| <==> forall i :: 0 <= i < |rows| ==> Aligned(rows[i])
  {
    if rows != [] {
      hide NameOf, Strip, IsGlob;
      FewerSpecs(rows[1..]);
      assert TermOf(rows[0]).None? ==> SpecOf(rows[0]).None?;
      hide SpecOf, TermOf;
      assert forall i :: 1 <= i < |rows| ==> rows[i] == rows[1..][i - 1];
    }
  }

  // ---- Rows that come from the form -------------------------------------

  function FormRows(cells: seq<string>): seq<Row> {
    if cells == [] then []
    else (if RowOf(cells[0]).Some? then [RowOf(cells[0]).value] else []) + FormRows(cells[1..])
  }

  /** What an entry of the plan looks for. */
  function TextOf(spec: Spec): string { if spec.ByName? then spec.name else spec.glob }

  lemma SlashedTrimmed(t: string)
    requires Trimmed(t)
    ensures Trimmed(Slashed(t))
  {
  }

  /** A row the form stores means the same to both readings, or nothing to either. */
  lemma FormRowAligned(cell: string)
    requires RowOf(cell).Some?
    ensures Aligned(RowOf(cell).value)
    ensures SpecOf(RowOf(cell).value).Some? ==>
            TextOf(SpecOf(RowOf(cell).value).value) == TermOf(RowOf(cell).value).value
  {
    hide NameOf, Strip, IsGlob, Slashed;
    CleanCell(cell);
  }

  lemma CleanCell(cell: string)
    ensures Strip(Slashed(Strip(cell))) == Slashed(Strip(cell)) && Strip("") == ""
  {
    TrimIsBare(IsSpace, cell);
    SlashedTrimmed(Strip(cell));
    hide Slashed;
    TrimBare(IsSpace, Slashed(Strip(cell)));
    TrimBare(IsSpace, "");
  }

  /** For every submission of the form, the plan's entries and the upload form's terms have the
      same number, and entry i looks for what term i shows. */
  lemma {:induction false} FormSlotsAligned(cells: seq<string>)
    ensures
      var specs, terms := Specs(FormRows(cells)), Terms(FormRows(cells));
      |specs| == |terms| && forall i :: 0 <= i < |specs| ==> TextOf(specs[i]) == terms[i]
  {
    if cells != [] {
      var rest := FormRows(cells[1..]);
      FormSlotsAligned(cells[1..]);
      hide RowOf, SpecOf, TermOf, TextOf;
      if RowOf(cells[0]).Some? {
        var row := RowOf(cells[0]).value;
        FormRowAligned(cells[0]);
        assert ([row] + rest)[1..] == rest;
      } else {
        assert [] + rest == rest;
      }
    }
  }

  /** A pattern that names a directory only, such as "/", is shown in the form and skipped by
      the extraction. */
  lemma SlashMisaligns()
    ensures |Specs([Row("", "/")])| == 0 && |Terms([Row("", "/")])| == 1
  {
    var row := Row("", "/");
    TrimBare(IsSpace, "");
    TrimBare(IsSpace, "/");
    assert !IsGlob("/");
    SlashName();
    assert [row][1..] == [];
    hide NameOf, Strip, IsGlob;
  }

  lemma SlashName()
    ensures NameOf("/") == ""
  {
    assert Span(NotSlash, "/") == 0 && "/"[1..] == "";
    assert PosixParts("") == [];
    assert PosixParts("/") == [];
  }

  // ---- Slots ------------------------------------------------------------

  datatype Extra = Extra(term: string, path: string)

  datatype Slots = Slots(kernel: Option<string>, initrd: Option<string>, modloop: Option<string>,
                         extras: seq<Extra>)

  const NO_SLOTS := Slots(None, None, None, [])

  datatype Os = Alpine | Proxmox | OtherOs

  const EXTRA_KERNELS: set<string> := {"linux26", "vmlinuz", "vmlinux", "bzimage", "kernel"}

  predicate IsModloop(term: string, path: string) {
    MentionsModloop(Lower(term)) || StartsWith(Lower(NameOf(path)), "modloop")
  }

  predicate MentionsModloop(t: string) { exists i :: 0 <= i <= |t| && StartsWith(t[i..], "modloop") }

  function ToModloop(s: Slots, term: string, path: string): Slots {
    if s.modloop.None? then s.(modloop := Some(path)) else s.(extras := s.extras + [Extra(term, path)])
  }

  /** One entry of the extraction plan: its first file found, if any. */
  function PlanStep(os: Os, s: Slots, idx: nat, term: string, found: Option<string>): Slots {
    if found.None? then s
    else if idx == 0 then s.(kernel := found)
    else if idx == 1 then
      if os == Proxmox && Lower(NameOf(found.value)) in EXTRA_KERNELS then
        if s.kernel.None? then s.(kernel := found)
        else s.(extras := s.extras + [Extra(term, found.value)])
      else s.(initrd := found)
    else if os == Alpine && IsModloop(term, found.value) then ToModloop(s, term, found.value)
    else s.(extras := s.extras + [Extra(term, found.value)])
  }

  /** One file uploaded by hand. */
  function ManualStep(os: Os, s: Slots, idx: nat, term: string, given: Option<string>): Slots {
    if given.None? then s
    else if idx == 0 then s.(kernel := given)
    else if idx == 1 then s.(initrd := given)
    else if os == Alpine && IsModloop(term, given.value) && s.modloop.None? then s.(modloop := given)
    else s.(extras := s.extras + [Extra(term, given.value)])
  }

  function PlanSlots(os: Os, terms: seq<string>, files: seq<Option<string>>): Slots
    requires |files| == |terms|
  {
    if terms == [] then NO_SLOTS
    else
      var n := |terms| - 1;
      PlanStep(os, PlanSlots(os, terms[..n], files[..n]), n, terms[n], files[n])
  }

  function ManualSlots(os: Os, terms: seq<string>, files: seq<Option<string>>): Slots
    requires |files| == |terms|
  {
    if terms == [] then NO_SLOTS
    else
      var n := |terms| - 1;
      ManualStep(os, ManualSlots(os, terms[..n], files[..n]), n, terms[n], files[n])
  }

  /** Where the extraction put the first file of the name an entry looks for. The entries that
      are globs, or whose name is blank, get no slot. */
  function SpecFile(base: string, report: map<string, seq<string>>, spec: Spec): Option<string> {
    if spec.ByGlob? || Strip(spec.name) == "" then None else FirstOf(base, report, spec.name)
  }

  function FirstOf(base: string, report: map<string, seq<string>>, name: string): Option<string> {
    if name !in report || report[name] == [] then None else Some(base + "/" + Slashed(report[name][0]))
  }

  function SpecFiles(base: string, report: map<string, seq<string>>, specs: seq<Spec>): (files: seq<Option<string>>)
    ensures |files| == |specs|
    ensures forall i :: 0 <= i < |specs| ==> files[i] == SpecFile(base, report, specs[i])
  {
    seq(|specs|, i requires 0 <= i < |specs| => SpecFile(base, report, specs[i]))
  }

  /** How far the terms of the form and the entries of the plan are paired. */
  function Paired(rows: seq<Row>, unified: seq<Spec>): (n: nat)
    ensures n <= |Terms(rows)| && n <= |unified|
  {
    if |Terms(rows)| < |unified| then |Terms(rows)| else |unified|
  }

  /** The slots the plan fills, given what was copied under each name. */
  function PlanOf(
    os: Os, rows: seq<Row>, unified: seq<Spec>, base: string, report: map<string, seq<string>>): Slots
  {
    var n := Paired(rows, unified);
    PlanSlots(os, Terms(rows)[..n], SpecFiles(base, report, unified[..n]))
  }

  /** The loop over the plan. */
  method AssignFromPlan(
    os: Os, rows: seq<Row>, unified: seq<Spec>, base: string, report: map<string, seq<string>>)
    returns (s: Slots)
    ensures s == PlanOf(os, rows, unified, base, report)
  {
    hide IsModloop, NameOf, Lower, Strip, FirstOf, Terms;
    var terms := Terms(rows);
    var count := if |terms| < |unified| then |terms| else |unified|;
    s := NO_SLOTS;
    for idx := 0 to count
      invariant s == PlanSlots(os, terms[..idx], SpecFiles(base, report, unified[..idx]))
    {
      PlanNext(os, terms, unified, base, report, idx);
      var spec, term := unified[idx], terms[idx];
      if spec.ByGlob? {
        continue;
      }
      if Strip(spec.name) == "" {
        continue;
      }
      var found := FirstOf(base, report, spec.name);
      if found.None? {
        continue;
      }
      var path := found.value;
      if idx == 0 {
        s := s.(kernel := Some(path));
      } else if idx == 1 {
        if os == Proxmox && Lower(NameOf(path)) in EXTRA_KERNELS {
          if s.kernel.None? {
            s := s.(kernel := Some(path));
          } else {
            s := s.(extras := s.extras + [Extra(term, path)]);
          }
          continue;
        }
        s := s.(initrd := Some(path));
      } else if os == Alpine && IsModloop(term, path) {
        if s.modloop.None? {
          s := s.(modloop := Some(path));
        } else {
          s := s.(extras := s.extras + [Extra(term, path)]);
        }
      } else {
        s := s.(extras := s.extras + [Extra(term, path)]);
      }
    }
  }

  lemma PlanNext(
    os: Os, terms: seq<string>, unified: seq<Spec>, base: string, report: map<string, seq<string>>, idx: nat)
    requires idx < |terms| && idx < |unified|
    ensures
      PlanSlots(os, terms[..idx + 1], SpecFiles(base, report, unified[..idx + 1])) ==
      PlanStep(os, PlanSlots(os, terms[..idx], SpecFiles(base, report, unified[..idx])), idx, terms[idx],
               SpecFile(base, report, unified[idx]))
  {
    hide PlanStep, SpecFile;
    var files := SpecFiles(base, report, unified[..idx + 1]);
    assert terms[..idx + 1][..idx] == terms[..idx];
    assert files[..idx] == SpecFiles(base, report, unified[..idx]);
    assert terms[..idx + 1][idx] == terms[idx] && files[idx] == SpecFile(base, report, unified[idx]);
  }

  /** The loop over the uploaded files. */
  method AssignFromUploads(os: Os, terms: seq<string>, files: seq<Option<string>>) returns (s: Slots)
    requires |files| == |terms|
    ensures s == ManualSlots(os, terms, files)
  {
    hide IsModloop, NameOf, Lower;
    s := NO_SLOTS;
    for idx := 0 to |terms|
      invariant s == ManualSlots(os, terms[..idx], files[..idx])
    {
      assert terms[..idx + 1][..idx] == terms[..idx] && files[..idx + 1][..idx] == files[..idx];
      if files[idx].None? {
        continue;
      }
      var path := files[idx].value;
      if idx == 0 {
        s := s.(kernel := Some(path));
      } else if idx == 1 {
        s := s.(initrd := Some(path));
      } else if os == Alpine && IsModloop(terms[idx], path) && s.modloop.None? {
        s := s.(modloop := Some(path));
      } else {
        s := s.(extras := s.extras + [Extra(terms[idx], path)]);
      }
    }
    assert terms[..|terms|] == terms && files[..|terms|] == files;
  }

  /** The second file is a kernel that Proxmox does not take for an initrd. */
  predicate SecondKernel(os: Os, files: seq<Option<string>>) {
    && os == Proxmox && |files| > 1 && files[1].Some?
    && Lower(NameOf(files[1].value)) in EXTRA_KERNELS
  }

  lemma {:induction false} InitrdKept(os: Os, terms: seq<string>, files: seq<Option<string>>)
    requires |files| == |terms| > 1
    ensures PlanSlots(os, terms, files).initrd == if SecondKernel(os, files) then None else files[1]
    ensures ManualSlots(os, terms, files).initrd == files[1]
  {
    hide IsModloop, NameOf, Lower;
    var n := |terms| - 1;
    if n > 1 {
      InitrdKept(os, terms[..n], files[..n]);
    } else {
      FirstNoInitrd(os, terms[..1], files[..1]);
    }
  }

  lemma FirstNoInitrd(os: Os, terms: seq<string>, files: seq<Option<string>>)
    requires |files| == |terms| == 1
    ensures PlanSlots(os, terms, files).initrd.None? && ManualSlots(os, terms, files).initrd.None?
  {
    hide IsModloop, NameOf, Lower;
    assert terms[..0] == [] && files[..0] == [];
  }

  lemma {:induction false} StepsAgree(os: Os, terms: seq<string>, files: seq<Option<string>>)
    requires |files| == |terms| && !SecondKernel(os, files)
    ensures PlanSlots(os, terms, files) == ManualSlots(os, terms, files)
  {
    hide IsModloop, NameOf, Lower;
    if terms != [] {
      var n := |terms| - 1;
      StepsAgree(os, terms[..n], files[..n]);
    }
  }

  /** Given the same files in the same places, the two routings fill every slot alike, except
      that Proxmox refuses a second kernel as initrd in the plan only. */
  lemma RoutingsAgree(os: Os, terms: seq<string>, files: seq<Option<string>>)
    requires |files| == |terms|
    ensures PlanSlots(os, terms, files) == ManualSlots(os, terms, files) <==> !SecondKernel(os, files)
  {
    hide PlanSlots, ManualSlots;
    if SecondKernel(os, files) {
      InitrdKept(os, terms, files);
    } else {
      StepsAgree(os, terms, files);
    }
  }

  /** When no row is read by one side only, the plan pairs every entry with the term of its row:
      its slots are those of a manual upload of the files it found, second kernels aside. */
  lemma AlignedPlanIsManual(os: Os, rows: seq<Row>, base: string, report: map<string, seq<string>>)
    requires AreAligned(rows)
    ensures |Specs(rows)| == |Terms(rows)|
    ensures
      var files := SpecFiles(base, report, Specs(rows));
      PlanOf(os, rows, Specs(rows), base, report) == ManualSlots(os, Terms(rows), files) <==>
      !SecondKernel(os, files)
  {
    hide PlanSlots, ManualSlots, Specs, Terms, Aligned, SecondKernel, SpecFile;
    FewerSpecs(rows);
    var n := |Specs(rows)|;
    assert Terms(rows)[..n] == Terms(rows) && Specs(rows)[..n] == Specs(rows);
    RoutingsAgree(os, Terms(rows), SpecFiles(base, report, Specs(rows)));
  }

  // ---- Files by the terms of the form -----------------------------------

  /** The file the administrator would upload for a term: the first one copied under that
      name. */
  function TermFile(base: string, report: map<string, seq<string>>, term: string): Option<string> {
    if IsGlob(term) || Strip(term) == "" then None else FirstOf(base, report, term)
  }

  function TermFiles(base: string, report: map<string, seq<string>>, terms: seq<string>): (files: seq<Option<string>>)
    ensures |files| == |terms|
    ensures forall i :: 0 <= i < |terms| ==> files[i] == TermFile(base, report, terms[i])
  {
    seq(|terms|, i requires 0 <= i < |terms| => TermFile(base, report, terms[i]))
  }

  /** An entry of the plan is a glob exactly when its text is one. */
  predicate SaysKind(spec: Spec) { spec.ByGlob? <==> IsGlob(TextOf(spec)) }

  lemma {:induction false} PartsChars(s: string, c: char)
    ensures forall i :: 0 <= i < |PosixParts(s)| && c in PosixParts(s)[i] ==> c in s
    decreases |s|
  {
    var n := Span(NotSlash, s);
    if n < |s| {
      PartsChars(s[n + 1..], c);
      assert c in s[n + 1..] ==> c in s;
    }
    assert c in s[..n] ==> c in s;
  }

  lemma NameChars(s: string, c: char)
    ensures c in NameOf(s) ==> c in s
  {
    hide PosixParts;
    PartsChars(s, c);
  }

  lemma StripChars(s: string, c: char)
    ensures c in Strip(s) ==> c in s
  {
    var a, b := TrimSplit(IsSpace, s);
    hide Trim;
    assert c in Strip(s) ==> c in a + Strip(s) + b;
  }

  lemma SlashedChars(s: string, c: char)
    ensures c in Slashed(s) && c != '/' ==> c in s
  {
    if c in Slashed(s) && c != '/' {
      var i :| 0 <= i < |s| && Slashed(s)[i] == c;
      assert s[i] == c;
    }
  }

  /** A name taken out of a text that is no glob is no glob. */
  lemma NameNotGlob(s: string)
    requires !IsGlob(s)
    ensures !IsGlob(NameOf(s))
  {
    hide NameOf;
    NameChars(s, '*');
    NameChars(s, '?');
    NameChars(s, '[');
    NameChars(s, ']');
  }

  lemma CleanedNotGlob(s: string)
    requires !IsGlob(s)
    ensures !IsGlob(Slashed(Strip(s)))
  {
    hide Strip, Slashed;
    forall c | c in {'*', '?', '[', ']'} ensures c in Slashed(Strip(s)) ==> c in s {
      SlashedChars(Strip(s), c);
      StripChars(s, c);
    }
  }

  lemma FormKind(cell: string)
    requires RowOf(cell).Some? && SpecOf(RowOf(cell).value).Some?
    ensures SaysKind(SpecOf(RowOf(cell).value).value)
  {
    hide NameOf, Strip, IsGlob, Slashed;
    CleanCell(cell);
    var s := Slashed(Strip(cell));
    if !IsGlob(s) {
      NameNotGlob(s);
      CleanedNotGlob(NameOf(s));
      NameNotGlob(Slashed(Strip(NameOf(s))));
    }
  }

  lemma {:induction false} FormKinds(cells: seq<string>)
    ensures AllSayKind(Specs(FormRows(cells))) && AreAligned(FormRows(cells))
  {
    hide RowOf, SpecOf, SaysKind, Aligned, Specs;
    if cells == [] {
      NoSpecs();
    } else {
      var rest := FormRows(cells[1..]);
      FormKinds(cells[1..]);
      if RowOf(cells[0]).Some? {
        var row := RowOf(cells[0]).value;
        FormRowAligned(cells[0]);
        if SpecOf(row).Some? { FormKind(cells[0]); }
        SpecsCons(row, rest);
      } else {
        assert [] + rest == rest;
      }
    }
  }

  predicate AllSayKind(specs: seq<Spec>) { forall i :: 0 <= i < |specs| ==> SaysKind(specs[i]) }

  predicate AreAligned(rows: seq<Row>) { forall i :: 0 <= i < |rows| ==> Aligned(rows[i]) }

  lemma NoSpecs()
    ensures Specs([]) == []
  {
  }

  lemma SpecsCons(row: Row, rest: seq<Row>)
    ensures Specs([row] + rest) == (if SpecOf(row).Some? then [SpecOf(row).value] else []) + Specs(rest)
  {
    hide SpecOf;
    assert ([row] + rest)[1..] == rest;
  }

  // ---- Entries and terms of the same row --------------------------------

  /** The rows that give an entry to the plan, counted from `from`. */
  function SpecRows(rows: seq<Row>, from: nat): seq<nat>
    decreases |rows|
  {
    if rows == [] then []
    else (if SpecOf(rows[0]).Some? then [from] else []) + SpecRows(rows[1..], from + 1)
  }

  /** The rows that give a term to the form. */
  function TermRows(rows: seq<Row>, from: nat): seq<nat>
    decreases |rows|
  {
    if rows == [] then []
    else (if TermOf(rows[0]).Some? then [from] else []) + TermRows(rows[1..], from + 1)
  }

  /** Entry i is what its row gives. */
  lemma {:induction false} SpecRowsMean(rows: seq<Row>, from: nat)
    ensures |SpecRows(rows, from)| == |Specs(rows)|
    ensures forall i :: 0 <= i < |Specs(rows)| ==>
              from <= SpecRows(rows, from)[i] < from + |rows| &&
              SpecOf(rows[SpecRows(rows, from)[i] - from]) == Some(Specs(rows)[i])
    decreases |rows|
  {
    hide SpecOf;
    if rows != [] {
      var rest := rows[1..];
      var k := if SpecOf(rows[0]).Some? then 1 else 0;
      assert Specs(rows) == (if k == 1 then [SpecOf(rows[0]).value] else []) + Specs(rest);
      assert SpecRows(rows, from) == (if k == 1 then [from] else []) + SpecRows(rest, from + 1);
      hide Specs, SpecRows;
      SpecRowsMean(rest, from + 1);
      forall i | 0 <= i < |Specs(rows)|
        ensures from <= SpecRows(rows, from)[i] < from + |rows|
        ensures SpecOf(rows[SpecRows(rows, from)[i] - from]) == Some(Specs(rows)[i])
      {
        if i >= k {
          var r := SpecRows(rest, from + 1)[i - k];
          assert SpecRows(rows, from)[i] == r && Specs(rows)[i] == Specs(rest)[i - k];
          assert rest[r - (from + 1)] == rows[r - from];
        }
      }
    }
  }

  lemma {:induction false} TermRowsMean(rows: seq<Row>, from: nat)
    ensures |TermRows(rows, from)| == |Terms(rows)|
    ensures forall i :: 0 <= i < |Terms(rows)| ==>
              from <= TermRows(rows, from)[i] < from + |rows| &&
              TermOf(rows[TermRows(rows, from)[i] - from]) == Some(Terms(rows)[i])
    decreases |rows|
  {
    hide TermOf;
    if rows != [] {
      var rest := rows[1..];
      var k := if TermOf(rows[0]).Some? then 1 else 0;
      assert Terms(rows) == (if k == 1 then [TermOf(rows[0]).value] else []) + Terms(rest);
      assert TermRows(rows, from) == (if k == 1 then [from] else []) + TermRows(rest, from + 1);
      hide Terms, TermRows;
      TermRowsMean(rest, from + 1);
      forall i | 0 <= i < |Terms(rows)|
        ensures from <= TermRows(rows, from)[i] < from + |rows|
        ensures TermOf(rows[TermRows(rows, from)[i] - from]) == Some(Terms(rows)[i])
      {
        if i >= k {
          var r := TermRows(rest, from + 1)[i - k];
          assert TermRows(rows, from)[i] == r && Terms(rows)[i] == Terms(rest)[i - k];
          assert rest[r - (from + 1)] == rows[r - from];
        }
      }
    }
  }

  lemma {:induction false} AlignedRows(rows: seq<Row>, from: nat)
    requires AreAligned(rows)
    ensures SpecRows(rows, from) == TermRows(rows, from)
    decreases |rows|
  {
    hide SpecOf, TermOf;
    if rows != [] {
      assert Aligned(rows[0]);
      assert forall i :: 0 <= i < |rows[1..]| ==> rows[1..][i] == rows[i + 1];
      AlignedRows(rows[1..], from + 1);
    }
  }

  /** Every entry comes from the row of the term with its number exactly when every row means
      something to both readings or to neither. */
  lemma SameRows(rows: seq<Row>)
    ensures SpecRows(rows, 0) == TermRows(rows, 0) <==> AreAligned(rows)
  {
    hide SpecOf, TermOf, Aligned;
    FewerSpecs(rows);
    SpecRowsMean(rows, 0);
    TermRowsMean(rows, 0);
    if AreAligned(rows) { AlignedRows(rows, 0); }
  }

  /** For every submission of the form, entry i and term i come from the same row. */
  lemma FormSameRow(cells: seq<string>, i: nat) returns (r: nat)
    requires i < |Specs(FormRows(cells))|
    ensures i < |Terms(FormRows(cells))| && r < |FormRows(cells)|
    ensures SpecRows(FormRows(cells), 0) == TermRows(FormRows(cells), 0)
    ensures SpecOf(FormRows(cells)[r]) == Some(Specs(FormRows(cells))[i])
    ensures TermOf(FormRows(cells)[r]) == Some(Terms(FormRows(cells))[i])
  {
    var rows := FormRows(cells);
    hide SpecOf, TermOf, Aligned, FormRows, Specs, Terms, SaysKind;
    FormKinds(cells);
    SameRows(rows);
    SpecRowsMean(rows, 0);
    TermRowsMean(rows, 0);
    r := SpecRows(rows, 0)[i];
  }

  /** What the plan found for its entries is what the form's terms name. */
  lemma SameFiles(cells: seq<string>, base: string, report: map<string, seq<string>>)
    ensures
      var rows := FormRows(cells);
      SpecFiles(base, report, Specs(rows)) == TermFiles(base, report, Terms(rows))
  {
    hide FormRows, Specs, Terms, IsGlob, FirstOf, Strip;
    FormSlotsAligned(cells);
    FormKinds(cells);
    var specs, terms := Specs(FormRows(cells)), Terms(FormRows(cells));
    forall i | 0 <= i < |specs| ensures SpecFile(base, report, specs[i]) == TermFile(base, report, terms[i]) {
      assert SaysKind(specs[i]) && TextOf(specs[i]) == terms[i];
    }
  }

  /** For every submission of the form, the extraction plan fills every slot as a manual upload
      of the copied files under the form's own terms would, except that Proxmox refuses a
      second kernel as initrd in the plan only. */
  lemma PlanIsManual(os: Os, cells: seq<string>, base: string, report: map<string, seq<string>>)
    ensures
      var rows := FormRows(cells);
      var files := TermFiles(base, report, Terms(rows));
      PlanOf(os, rows, Specs(rows), base, report) == ManualSlots(os, Terms(rows), files) <==>
      !SecondKernel(os, files)
  {
    hide FormRows, Specs, Terms, Aligned, PlanOf, ManualSlots, SecondKernel, SpecFile, TermFile;
    FormKinds(cells);
    SameFiles(cells, base, report);
    AlignedPlanIsManual(os, FormRows(cells), base, report);
  }

  // ---- A stored plan that shifts ----------------------------------------

  /** A directory, then an initrd. */
  const SHIFTED: seq<Row> := [Row("", "/"), Row("initrd", "")]

  lemma InitrdName()
    ensures NameOf("initrd") == "initrd" && Strip("initrd") == "initrd" && Slashed("initrd") == "initrd"
    ensures Strip("") == "" && Strip("/") == "/" && !IsGlob("/")
  {
    assert !IsGlob("/");
    TrimBare(IsSpace, "/");
    TrimBare(IsSpace, "");
    PlainName("initrd");
  }

  lemma PlainName(t: string)
    requires |t| > 1 && forall i :: 0 <= i < |t| ==> !IsSpace(t[i]) && t[i] != '/' && t[i] != '\\'
    ensures NameOf(t) == t && Strip(t) == t && Slashed(t) == t
  {
    TrimBare(IsSpace, t);
    assert All(NotSlash, t) && t + "" == t;
    SpanOf(NotSlash, t, "");
    hide All, Trim, IsSpace;
    assert t[..|t|] == t;
    assert PosixParts(t) == [t];
  }

  lemma ShiftedReadings()
    ensures Specs(SHIFTED) == [ByName("initrd")] && Terms(SHIFTED) == ["/", "initrd"]
  {
    InitrdName();
    SlashName();
    hide NameOf, Strip, IsGlob, Slashed;
    assert SpecOf(SHIFTED[0]).None? && SpecOf(SHIFTED[1]) == Some(ByName("initrd"));
    assert TermOf(SHIFTED[0]) == Some("/") && TermOf(SHIFTED[1]) == Some("initrd");
    hide SpecOf, TermOf;
    assert SHIFTED[1..] == [SHIFTED[1]] && SHIFTED[1..][1..] == [];
  }

  /** A stored row that only names a directory shifts the entries against the terms: the plan
      boots the initrd as kernel. */
  lemma ShiftedPlan(os: Os, base: string, report: map<string, seq<string>>)
    requires FirstOf(base, report, "initrd").Some?
    ensures
      var s := PlanOf(os, SHIFTED, Specs(SHIFTED), base, report);
      s.kernel == FirstOf(base, report, "initrd") && s.initrd.None?
  {
    InitrdName();
    ShiftedReadings();
    hide FirstOf, SHIFTED, Strip, IsModloop, NameOf, Lower, Specs, Terms;
    var terms, files := ["/", "initrd"][..1], SpecFiles(base, report, [ByName("initrd")][..1]);
    assert Paired(SHIFTED, Specs(SHIFTED)) == 1;
    assert files[0] == FirstOf(base, report, "initrd");
    OneSlot(os, terms, files);
  }

  lemma OneSlot(os: Os, terms: seq<string>, files: seq<Option<string>>)
    requires |terms| == |files| == 1
    ensures PlanSlots(os, terms, files) == NO_SLOTS.(kernel := files[0])
  {
    hide IsModloop, NameOf, Lower;
    assert terms[..0] == [] && files[..0] == [];
  }

  // ---- A form with a second kernel --------------------------------------

  /** Two kernels in the form, the second where an initrd is expected. */
  const KERNELS: seq<string> := ["vmlinuz", "linux26"]

  lemma KernelTexts()
    ensures |"vmlinuz"| == 7 && forall i :: 0 <= i < 7 ==> IsWord("vmlinuz"[i])
    ensures |"linux26"| == 7 && forall i :: 0 <= i < 7 ==> IsWord("linux26"[i])
    ensures Lower("linux26") == "linux26"
  {
  }

  /** A word is a name, no glob, and trimmed. */
  lemma WordName(t: string)
    requires |t| > 1 && forall i :: 0 <= i < |t| ==> IsWord(t[i])
    ensures NameOf(t) == t && Strip(t) == t && Slashed(t) == t && !IsGlob(t) && t != ""
  {
    assert forall i :: 0 <= i < |t| ==>
      !IsSpace(t[i]) && t[i] != '/' && t[i] != '\\' && t[i] != '*' && t[i] != '?' && t[i] != '[';
    PlainName(t);
  }

  lemma WordRow(t: string)
    requires NameOf(t) == t && Strip(t) == t && Slashed(t) == t && !IsGlob(t) && t != ""
    ensures RowOf(t) == Some(Row(t, "")) && TermOf(Row(t, "")) == Some(t)
  {
    hide NameOf, Strip, IsGlob, Slashed;
  }

  lemma KernelRows()
    ensures FormRows(KERNELS) == [Row("vmlinuz", ""), Row("linux26", "")]
    ensures Terms(FormRows(KERNELS)) == KERNELS
  {
    KernelTexts();
    WordName("vmlinuz");
    WordName("linux26");
    WordRow("vmlinuz");
    WordRow("linux26");
    TwoRows("vmlinuz", "linux26");
  }

  lemma TwoRows(s: string, t: string)
    requires RowOf(s) == Some(Row(s, "")) && TermOf(Row(s, "")) == Some(s)
    requires RowOf(t) == Some(Row(t, "")) && TermOf(Row(t, "")) == Some(t)
    ensures FormRows([s, t]) == [Row(s, ""), Row(t, "")] && Terms([Row(s, ""), Row(t, "")]) == [s, t]
  {
    hide RowOf, TermOf;
    assert [s, t][1..] == [t] && [t][1..] == [];
    assert FormRows([]) == [] && Terms([]) == [];
    assert FormRows([t]) == [Row(t, "")];
    assert FormRows([s, t]) == [Row(s, "")] + [Row(t, "")];
    var a, b := Row(s, ""), Row(t, "");
    assert [a, b][1..] == [b] && [b][1..] == [];
    assert Terms([b]) == [t];
    assert Terms([a, b]) == [s] + [t];
  }

  lemma KernelPath(base: string, name: string)
    requires name != "" && name != "." && All(NotSlash, name)
    ensures NameOf(base + "/" + name) == name
  {
    hide PosixParts, All;
    PartsWhole(name);
    PartsAcross(base, name);
  }

  lemma PartsWhole(head: string)
    requires All(NotSlash, head)
    ensures PosixParts(head) == if head == "" || head == "." then [] else [head]
  {
    assert head + "" == head;
    hide All;
    SpanOf(NotSlash, head, "");
    assert head[..|head|] == head;
  }

  lemma PartsStep(head: string, rest: string)
    requires All(NotSlash, head)
    ensures PosixParts(head + ("/" + rest)) ==
            (if head == "" || head == "." then [] else [head]) + PosixParts(rest)
  {
    var s := head + ("/" + rest);
    hide All;
    SpanOf(NotSlash, head, "/" + rest);
    assert s[..|head|] == head && s[|head| + 1..] == rest;
  }

  /** A name behind a slash is the last part of the path. */
  lemma {:induction false} PartsAcross(base: string, name: string)
    requires PosixParts(name) == [name]
    ensures PosixParts(base + "/" + name) == PosixParts(base) + [name]
    decreases |base|
  {
    var n := Span(NotSlash, base);
    hide All, PosixParts, Span;
    if n < |base| {
      var head, rest := base[..n], base[n + 1..];
      assert base == head + ("/" + rest) && base + "/" + name == head + ("/" + (rest + "/" + name));
      PartsStep(head, rest);
      PartsStep(head, rest + "/" + name);
      PartsAcross(rest, name);
      Assoc(if head == "" || head == "." then [] else [head], PosixParts(rest), [name]);
    } else {
      assert base[..n] == base && base + "/" + name == base + ("/" + name);
      PartsWhole(base);
      PartsStep(base, name);
    }
  }

  /** With such a form and both files copied, plan and upload differ on Proxmox. */
  lemma SecondKernelDiffers(base: string, report: map<string, seq<string>>)
    requires "linux26" in report && report["linux26"] == ["linux26"]
    ensures
      var rows := FormRows(KERNELS);
      PlanOf(Proxmox, rows, Specs(rows), base, report) !=
      ManualSlots(Proxmox, Terms(rows), TermFiles(base, report, Terms(rows)))
  {
    var rows := FormRows(KERNELS);
    KernelTexts();
    WordName("linux26");
    KernelRows();
    hide NameOf, Strip, IsGlob, Slashed, FormRows, Terms, Specs, PlanOf, ManualSlots, Lower;
    PlanIsManual(Proxmox, KERNELS, base, report);
    var files := TermFiles(base, report, Terms(rows));
    assert files[1] == TermFile(base, report, "linux26") == Some(base + "/" + "linux26");
    assert All(NotSlash, "linux26") && "linux26" != ".";
    KernelPath(base, "linux26");
  }
}
