/** What the parser reads from a boot.cfg after a kickstart was activated: the same assignments,
    but for the kernel options; and what an activation changes in a version. */
module ActivationMeans {
  import opened Text
  import opened Lines
  import opened ConfigLine
  import opened Kickstart
  import opened KickstartLaws
  import opened Refresh
  import opened RefreshLaws
  import opened BootCfg
  import opened ReadBack
  import opened BootCfgLaws
  import opened RefreshMeans
  import opened EsxiRuns

  // ---- The file ---------------------------------------------------------

  /** What an activation makes of one assignment. */
  function KsItem(a: Assignment, ks: string): Assignment {
    if a.key == "kernelopt" then Assignment("kernelopt", Merge(a.value, ks)) else a
  }

  function KsItems(items: seq<Assignment>, ks: string): (r: seq<Assignment>)
    ensures |r| == |items| && forall i :: 0 <= i < |items| ==> r[i] == KsItem(items[i], ks)
  {
    seq(|items|, i requires 0 <= i < |items| => KsItem(items[i], ks))
  }

  predicate AnyOption(items: seq<Assignment>) { exists i :: 0 <= i < |items| && items[i].key == "kernelopt" }

  lemma OptionKeys(key: string)
    ensures KindOf(key) == OptionKey <==> key == "kernelopt"
  {
    assert KERNELOPT == "kernelopt";
    hide KERNELOPT, KindOf;
    KindIs(key);
  }

  lemma OptionReads(x: string)
    requires Trimmed(x)
    ensures Read("kernelopt=" + x) == Some(Assignment("kernelopt", x))
  {
    assert KERNELOPT == "kernelopt";
    Heads();
    KeyLiterals();
    hide KERNELOPT, IsName, All, Read, Trimmed;
    ReadWritten(KERNELOPT, x);
  }

  lemma KsLineReads(line: string, ks: string)
    ensures Read(KsLine(line, ks)) ==
            if Read(line).Some? then Some(KsItem(Read(line).value, ks)) else None
  {
    hide Read, Merge, IsKernelopt, ValueOf, KindOf, IsPrefix;
    if Read(line).Some? {
      var a := Read(line).value;
      KeysSeen(line, a);
      OptionKeys(a.key);
      MergeIsTrimmed(a.value, ks);
      OptionReads(Merge(a.value, ks));
    } else {
      NoneNoKey(line);
    }
  }

  lemma {:induction false} KsLinesRead(lines: seq<string>, ks: string)
    ensures ReadLines(MapLines(KsLineOf(ks), lines)) == KsItems(ReadLines(lines), ks)
    ensures AnyKernelopt(lines) <==> AnyOption(ReadLines(lines))
    decreases |lines|
  {
    if lines == [] {
      assert MapLines(KsLineOf(ks), lines) == [];
    } else {
      var line, rest := lines[0], lines[1..];
      assert lines == [line] + rest;
      hide Read, KsLine, KsItem, ReadLines, AnyKernelopt, AnyOption;
      KsLinesRead(rest, ks);
      KsLineReads(line, ks);
      ReadCons(line, rest);
      ReadCons(KsLine(line, ks), MapLines(KsLineOf(ks), rest));
      MapKsCons(line, rest, ks);
      AnyKerneloptCons(line, rest);
      if Read(line).Some? {
        KsItemsCons(Read(line).value, ReadLines(rest), ks);
      } else {
        assert [] + ReadLines(rest) == ReadLines(rest);
        assert [] + KsItems(ReadLines(rest), ks) == KsItems(ReadLines(rest), ks);
      }
    }
  }

  lemma MapKsCons(line: string, rest: seq<string>, ks: string)
    ensures MapLines(KsLineOf(ks), [line] + rest) == [KsLine(line, ks)] + MapLines(KsLineOf(ks), rest)
  {
    hide KsLine;
  }

  lemma KsItemsCons(a: Assignment, rest: seq<Assignment>, ks: string)
    ensures KsItems([a] + rest, ks) == [KsItem(a, ks)] + KsItems(rest, ks)
    ensures AnyOption([a] + rest) <==> a.key == "kernelopt" || AnyOption(rest)
  {
    hide KsItem;
    var all := [a] + rest;
    assert all[0] == a && forall i :: 0 <= i < |rest| ==> all[i + 1] == rest[i];
  }

  lemma AnyKerneloptCons(line: string, rest: seq<string>)
    ensures AnyKernelopt([line] + rest) <==>
            (Read(line).Some? && Read(line).value.key == "kernelopt") || AnyKernelopt(rest)
  {
    hide Read, IsKernelopt, IsPrefix, ValueOf, KindOf;
    if Read(line).Some? {
      KeysSeen(line, Read(line).value);
      OptionKeys(Read(line).value.key);
    } else {
      NoneNoKey(line);
    }
    var all := [line] + rest;
    assert all[0] == line && forall i :: 0 <= i < |rest| ==> all[i + 1] == rest[i];
  }

  lemma ReadTrimmedLine(line: string)
    ensures Read(RightTrimmed(line)) == Read(line) && (IsBlank(line) ==> Read(line) == None)
  {
    StripRightTrimmed(line);
    hide KeyOf, ValueOf, IsComment;
    assert Strip("") == "";
  }

  lemma {:induction false} TrimEndReads(lines: seq<string>)
    ensures ReadLines(TrimEnd(lines)) == ReadLines(lines)
  {
    if lines != [] {
      var front, last := lines[..|lines| - 1], lines[|lines| - 1];
      assert lines == front + [last];
      TrimEndSnoc(front, last);
      hide Read, ReadLines, IsBlank, RightTrimmed, TrimEnd;
      TrimEndReads(front);
      ReadTrimmedLine(last);
      ReadConcat(front, [last]);
      ReadConcat(front, [RightTrimmed(last)]);
      OneRead(last);
      OneRead(RightTrimmed(last));
      assert ReadLines(front) + [] == ReadLines(front);
    }
  }

  /** After an activation the parser finds the same assignments in the same order, the kernel
      options with the new address; and an assignment of its own at the end when there were no
      kernel options. */
  lemma ActivatedReads(text: string, ks: string)
    requires OneLine(ks) && NoneContinued(SplitLines(WithKs(text, ks)))
    ensures
      var items := ReadLines(SplitLines(text));
      Assignments(WithKs(text, ks)) ==
      KsItems(items, ks) + if AnyOption(items) then [] else [Assignment("kernelopt", Merge("", ks))]
  {
    var lines := SplitLines(text);
    var out := KsLines(lines, ks);
    hide All, Assignments, ReadLines, WithKs, SplitLines, KsItem, Merge, AnyKernelopt, AnyOption, KsLine, NoneContinued,
         Trimmed, TrimEnd;
    KickstartLaws.ReadBack(text, ks);
    TrimmedHasKernelopt(lines, ks);
    KsLinesOneLine(lines, ks);
    TrimEndNoBreaks(out);
    ActivatedFile(text, ks);
    ReadLineByLine(TrimEnd(out));
    TrimEndReads(out);
    KsLinesRead(lines, ks);
    MergeIsTrimmed("", ks);
    OptionReads(Merge("", ks));
    OneRead("kernelopt=" + Merge("", ks));
    ReadConcat(MapLines(KsLineOf(ks), lines), ["kernelopt=" + Merge("", ks)]);
    if AnyKernelopt(lines) {
      assert out == MapLines(KsLineOf(ks), lines);
      assert KsItems(ReadLines(lines), ks) + [] == KsItems(ReadLines(lines), ks);
    }
  }

  lemma ActivatedFile(text: string, ks: string)
    ensures WithKs(text, ks) == Unlines(TrimEnd(KsLines(SplitLines(text), ks)))
  {
    hide KsLines, SplitLines, RightTrimmed, TrimEnd;
    TrimJoin(KsLines(SplitLines(text), ks));
  }

  // ---- The version ------------------------------------------------------

  /** Why an activation is refused, first reason first, and what one that is not refused changes:
      the boot file and the active row, nothing else. */
  lemma ActivationDecides(v: Version, s: State, cfg: Config, server: string)
    ensures
      var r, t := Refusal(v, s, cfg), Apply(v, s, Activate(cfg, server));
      if Lower(v.slug) != "esxi" then r == Some(NotEsxi) && t == s
      else if cfg.versionId != v.id then r == Some(WrongVersion) && t == s
      else if cfg.kind !in ["esxi-kickstart", "kickstart"] then r == Some(WrongKind) && t == s
      else if Strip(cfg.path) == "" then r == Some(EmptyPath) && t == s
      else if s.boot == None then r == Some(NoBootCfg) && t == s
      else
        r == None && t.active == Some(cfg.id) && t.manual == s.manual
        && t.boot == Some(WithKs(s.boot.value, KsUrl(server, cfg.path)))
  {
    hide WithKs, KsUrl, Strip, Lower;
  }

  /** What a clear and a deletion change. */
  lemma ClearingDecides(v: Version, s: State, configId: int)
    ensures
      var t := Apply(v, s, Clear);
      if Lower(v.slug) != "esxi" then t == s
      else
        t.active == None && t.manual == s.manual
        && t.boot == if s.boot == None then None else Some(WithKs(s.boot.value, ""))
    ensures
      var t := Apply(v, s, Delete(configId));
      if s.active != Some(configId) then t == s
      else
        t.active == None && t.manual == s.manual
        && t.boot == if s.boot == None || Lower(v.slug) != "esxi" then s.boot else Some(WithKs(s.boot.value, ""))
  {
    hide WithKs, Lower;
  }
}
