/** What the parser takes from a boot.cfg: which line assigns what, which assignment of a key
    counts, and the modules in order. */
module ParserMeans {
  import opened Text
  import opened ConfigLine
  import opened Modules
  import opened Refresh
  import opened BootCfg
  import opened ReadBack
  import opened BootCfgLaws

  // ---- One line ---------------------------------------------------------

  /** A key, white space, the first equals sign, white space, a value: the key in lower case and
      the value, whatever white space is around them. */
  lemma LineAssigns(a: string, key: string, b: string, c: string, value: string, d: string)
    requires All(IsSpace, a) && All(IsSpace, b) && All(IsSpace, c) && All(IsSpace, d)
    requires Trimmed(key) && Trimmed(value) && All(NotEquals, key) && (key != "" ==> key[0] != '#')
    ensures Read(a + ((key + b) + ("=" + (c + value + d)))) == Some(Assignment(Lower(key), value))
  {
    var head, tail := key + b, c + value + d;
    var first := head + ("=" + tail);
    AssignmentParts(key, b, c, value, d);
    NotCommented(a, key, b, tail);
    hide All, Strip, Lower, KeyOf, ValueOf, IsComment, Trimmed;
    EqualsIn(head, tail);
    FrontStripped(a, first);
  }

  lemma AssignmentParts(key: string, b: string, c: string, value: string, d: string)
    requires All(IsSpace, b) && All(IsSpace, c) && All(IsSpace, d)
    requires Trimmed(key) && Trimmed(value) && All(NotEquals, key)
    ensures
      var first := (key + b) + ("=" + (c + value + d));
      KeyOf(first) == Lower(key) && ValueOf(first) == value
  {
    hide All, Lower, Trim, KeyOf, ValueOf;
    SpacesNotEquals(b);
    AllConcat(NotEquals, key, b);
    KeyStripped(key, b);
    TrimPadded(IsSpace, c, value, d);
    ReadCut(key + b, c + value + d);
  }

  lemma KeyStripped(key: string, b: string)
    requires Trimmed(key) && All(IsSpace, b)
    ensures Strip(key + b) == key
  {
    assert All(IsSpace, "") && "" + key + b == key + b;
    hide All;
    TrimPadded(IsSpace, "", key, b);
  }

  /** White space in front of an assignment does not matter. */
  lemma FrontStripped(a: string, first: string)
    requires All(IsSpace, a) && '=' in first
    ensures '=' in a + first && KeyOf(Strip(a + first)) == KeyOf(first) && ValueOf(Strip(a + first)) == ValueOf(first)
    ensures '=' in Strip(a + first)
  {
    EmptyAll(IsSpace);
    var x, y := TrimSplit(IsSpace, a + first);
    var s := Strip(a + first);
    assert a + first == x + s + y;
    hide All, Strip, KeyOf, ValueOf, Trim;
    assert a + first + "" == a + first;
    ReadPadded(a, first, "");
    if '=' !in s { PaddedNoEquals(x, s, y); }
    ReadPadded(x, s, y);
  }

  lemma NotCommented(a: string, key: string, b: string, tail: string)
    requires All(IsSpace, a) && All(IsSpace, b) && Trimmed(key) && (key != "" ==> key[0] != '#')
    ensures
      var s := Strip(a + ((key + b) + ("=" + tail)));
      !IsComment(s) && s != ""
  {
    var spaces, rest := if key == "" then a + b else a, if key == "" then "=" + tail else key + (b + ("=" + tail));
    assert rest[0] == if key == "" then '=' else key[0];
    assert !IsSpace(rest[0]) && rest[0] != '#';
    AllConcat(IsSpace, a, b);
    assert a + ((key + b) + ("=" + tail)) == spaces + rest;
    hide All, IsSpace;
    FirstSolid(spaces, rest);
  }

  lemma FirstSolid(spaces: string, rest: string)
    requires All(IsSpace, spaces) && rest != "" && !IsSpace(rest[0])
    ensures Strip(spaces + rest) != "" && Strip(spaces + rest)[0] == rest[0]
  {
    hide All;
    SpanOf(IsSpace, spaces, rest);
    assert TrimLeft(IsSpace, spaces + rest) == rest;
    KeptSome(rest);
  }

  lemma KeptSome(rest: string)
    requires rest != "" && !IsSpace(rest[0])
    ensures Kept(IsSpace, rest) > 0
  {
    assert rest[0..] == rest;
  }

  /** Blank lines, comments and lines without an equals sign assign nothing. */
  lemma LineAssignsNothing(line: string)
    ensures Read(line) == None <==> Strip(line) == "" || Strip(line)[0] == '#' || '=' !in line
  {
    var a, b := TrimSplit(IsSpace, line);
    hide All, Trim, KeyOf, ValueOf;
    if '=' in line && '=' !in Strip(line) { PaddedNoEquals(a, Strip(line), b); }
    if '=' in Strip(line) { ReadPadded(a, Strip(line), b); }
  }

  // ---- Continuations ----------------------------------------------------

  /** Windows line ends become line feeds before anything else; a lone carriage return stays. */
  lemma {:induction false} CrLfGoes(a: string, b: string)
    requires '\r' !in a
    ensures NoCrLf(a + "\r\n" + b) == a + "\n" + NoCrLf(b)
    ensures b == "" || b[0] != '\n' ==> NoCrLf(a + "\r" + b) == a + "\r" + NoCrLf(b)
  {
    if a == "" {
      assert "" + "\r\n" + b == "\r\n" + b && ("\r\n" + b)[2..] == b;
      assert "" + "\r" + b == "\r" + b && ("\r" + b)[1..] == b;
      assert "" + "\n" + NoCrLf(b) == "\n" + NoCrLf(b) && "" + "\r" + NoCrLf(b) == "\r" + NoCrLf(b);
    } else {
      var c, rest := a[0], a[1..];
      hide NoCrLf;
      CrLfGoes(rest, b);
      CharStays(c, rest + "\r\n" + b);
      CharStays(c, rest + "\r" + b);
      Grouped(a, "\r\n", b);
      Grouped(a, "\r", b);
      Grouped(a, "\n", NoCrLf(b));
      Grouped(a, "\r", NoCrLf(b));
    }
  }

  lemma CharStays(c: char, t: string)
    requires c != '\r'
    ensures NoCrLf([c] + t) == [c] + NoCrLf(t)
  {
    assert ([c] + t)[1..] == t;
  }

  lemma Grouped(a: string, m: string, b: string)
    requires a != ""
    ensures a + m + b == [a[0]] + (a[1..] + m + b)
  {
  }

  /** A line that ends in a backslash goes on with the next: the backslash, the white space
      before it and the break go; at the end of the file there is nothing more. */
  lemma ContinuedMerges(x: string, gap: string, rest: seq<string>, buf: string)
    requires All(NotBreak, x) && All(IsSpace, gap) && All(NotBreak, gap) && (x != "" ==> !IsSpace(x[|x| - 1]))
    ensures MergePieces([x + gap + "\\"] + rest, buf) == MergePieces(rest, buf + x)
  {
    var line := x + gap + "\\";
    assert All(NotBreak, "\\");
    assert line[|line| - 1] == '\\' && line[..|line| - 1] == x + gap;
    assert Continued(line) == x by {
      hide All;
      KeptOf(IsSpace, x, gap);
    }
    hide All, MergePieces, Continued;
    AllConcat(NotBreak, x + gap, "\\");
    AllConcat(NotBreak, x, gap);
    MergeStep(line, rest, buf);
  }

  // ---- The keys ---------------------------------------------------------

  /** Assignment i is the last one of its key. */
  ghost predicate IsLast(items: seq<Assignment>, i: nat, key: string) {
    i < |items| && items[i].key == key && forall j :: i < j < |items| ==> items[j].key != key
  }

  lemma {:induction false} KeysSnoc(kv: map<string, string>, items: seq<Assignment>, a: Assignment)
    ensures Keys(kv, items + [a]) == Put(Keys(kv, items), a)
    decreases |items|
  {
    hide Put;
    if items == [] {
      assert ([] + [a])[1..] == [] && ([] + [a])[0] == a;
    } else {
      assert (items + [a])[1..] == items[1..] + [a] && (items + [a])[0] == items[0];
      KeysSnoc(Put(kv, items[0]), items[1..], a);
    }
  }

  /** The parser finds exactly the keys that are assigned, but for the two of the modules, and
      for each the value of its last assignment. */
  lemma {:induction false} LastCounts(items: seq<Assignment>, key: string)
    ensures key in Keys(map[], items) <==>
            key != "module" && key != "modules" && exists i :: 0 <= i < |items| && items[i].key == key
    ensures key in Keys(map[], items) ==>
            exists i: nat :: IsLast(items, i, key) && Keys(map[], items)[key] == items[i].value
  {
    if items != [] {
      var n := |items| - 1;
      var front, a := items[..n], items[n];
      assert items == front + [a];
      KeysSnoc(map[], front, a);
      ModuleKeys(a.key);
      ModuleKeys(key);
      hide Keys, KindOf;
      LastCounts(front, key);
      if key in Keys(map[], items) {
        if a.key == key {
          assert IsLast(items, n, key);
        } else {
          var i: nat :| IsLast(front, i, key) && Keys(map[], front)[key] == front[i].value;
          assert IsLast(items, i, key);
        }
      }
      if i :| 0 <= i < |items| && items[i].key == key && key != a.key {
        assert front[i].key == key;
      }
    }
  }

  lemma ModuleKeys(key: string)
    ensures KindOf(key).ModuleKey? || KindOf(key).ModulesKey? <==> key == "module" || key == "modules"
  {
    KindIs(key);
    ModuleNames();
    hide KindOf, MODULE, MODULES;
  }

  lemma ModuleNames()
    ensures MODULE == "module" && MODULES == "modules"
  {
  }

  // ---- The modules ------------------------------------------------------

  lemma ModulesOfOne(a: Assignment)
    ensures a.key == "module" ==> ModulesOf(a) == if a.value == "" then [] else [a.value]
    ensures a.key != "module" && a.key != "modules" ==> ModulesOf(a) == []
    ensures forall parts :: AreClean(parts) && a == Assignment("modules", JoinModules(parts)) ==>
              ModulesOf(a) == parts
  {
    KindIs(a.key);
    ModuleNames();
    hide KindOf, MODULE, MODULES, Segments, JoinModules, AreClean;
    forall parts | AreClean(parts) && a == Assignment("modules", JoinModules(parts))
      ensures ModulesOf(a) == parts
    {
      SegmentsOfJoin(parts);
    }
  }

  /** The modules come line by line; a `module` line gives its value, a `modules` line its parts,
      and no other line any. */
  lemma {:induction false} ModulesInOrder(front: seq<Assignment>, a: Assignment, back: seq<Assignment>)
    ensures ModuleList(front + [a] + back) == ModuleList(front) + ModulesOf(a) + ModuleList(back)
    ensures a.key == "module" ==> ModulesOf(a) == if a.value == "" then [] else [a.value]
    ensures a.key != "module" && a.key != "modules" ==> ModulesOf(a) == []
    ensures forall parts :: AreClean(parts) && a == Assignment("modules", JoinModules(parts)) ==>
              ModulesOf(a) == parts
  {
    ModulesOfOne(a);
    hide ModulesOf, JoinModules, AreClean;
    if front == [] {
      assert [] + [a] + back == [a] + back && ([a] + back)[1..] == back;
    } else {
      assert (front + [a] + back)[1..] == front[1..] + [a] + back;
      ModulesInOrder(front[1..], a, back);
      var x := ModulesOf(front[0]);
      Assoc(x, ModuleList(front[1..]), ModulesOf(a));
      Assoc(x, ModuleList(front[1..]) + ModulesOf(a), ModuleList(back));
    }
  }
}
