/** What the rows of an Ubuntu version hold: after any run, each holds the content and the meta
    of the last create, update or import that wrote it. */
module UbuntuSaves {
  import opened Text
  import opened Url
  import opened UbuntuLifecycle

  // ---- One operation ----------------------------------------------------

  /** Saving, activating, clearing and deleting, field by field. */
  lemma OperationsSave(s: Store, op: Op)
    requires !op.Scan? && !op.Drop?
    ensures
      var t := Apply(s, op);
      match op
      case Create(id, slug, content, meta) =>
        if id in s.rows || exists k :: k in s.rows && s.rows[k].slug == slug then t == s
        else IsSaved(s, t, id, slug, content, meta)
      case Update(id, content, meta) =>
        if id in s.rows then IsSaved(s, t, id, s.rows[id].slug, content, meta) else t == s
      case Activate(id) =>
        if id in s.rows && s.rows[id].slug in s.bundles && s.boot then IsActivated(s, t, id) else t == s
      case Clear => IsCleared(s, t) && t.rows == s.rows && t.bundles == s.bundles
      case Delete(id) => if id in s.rows then IsDeleted(s, t, id) else t == s
      case _ => true
  {
  }

  // ---- Imports ----------------------------------------------------------

  /** The listing shows a bundle at i that no row has, for the first time. */
  predicate FoundAt(s: Store, listing: seq<string>, i: nat) {
    && i < |listing| && listing[i] in s.bundles && !Taken(s.rows, listing[i])
    && forall j :: 0 <= j < i ==> listing[j] != listing[i]
  }

  /** The row was imported from entry i of the listing. */
  predicate ImportedFrom(s: Store, listing: seq<string>, ids: seq<nat>, id: nat, row: Row, i: nat) {
    && FoundAt(s, listing, i) && i < |ids| && ids[i] == id && row.slug == listing[i]
    && row.content == Translated(s.bundles[listing[i]].user)
    && row.meta == Translated(s.bundles[listing[i]].meta)
  }

  ghost predicate ImportsRow(s: Store, listing: seq<string>, ids: seq<nat>, id: nat, row: Row) {
    exists i: nat :: ImportedFrom(s, listing, ids, id, row, i)
  }

  /** After i entries: the rows that were there, and one for each bundle found. */
  ghost predicate ScannedTo(s: Store, t: Store, listing: seq<string>, ids: seq<nat>, n: nat)
    requires n <= |listing| <= |ids|
  {
    && t == s.(rows := t.rows)
    && (forall k :: k in s.rows ==> k in t.rows && t.rows[k] == s.rows[k])
    && (forall k :: k in t.rows && k !in s.rows ==>
          exists i: nat :: i < n && ImportedFrom(s, listing, ids, k, t.rows[k], i))
    && (forall i :: 0 <= i < n && FoundAt(s, listing, i) ==>
          ids[i] in t.rows && ImportedFrom(s, listing, ids, ids[i], t.rows[ids[i]], i))
  }

  /** The slugs that have a row after n entries. */
  ghost predicate ExistingAt(s: Store, listing: seq<string>, n: nat, existing: set<string>)
    requires n <= |listing|
  {
    forall slug :: slug in existing <==>
      Taken(s.rows, slug) || (slug in s.bundles && exists j :: 0 <= j < n && listing[j] == slug)
  }

  lemma ScanStep(s: Store, t: Store, listing: seq<string>, ids: seq<nat>, n: nat, existing: set<string>)
    requires n < |listing| <= |ids| && AreFresh(s.rows, ids)
    requires ScannedTo(s, t, listing, ids, n) && ExistingAt(s, listing, n, existing)
    ensures
      var slug := listing[n];
      if slug !in s.bundles || slug in existing
      then !FoundAt(s, listing, n) && ScannedTo(s, t, listing, ids, n + 1)
           && ExistingAt(s, listing, n + 1, existing)
      else FoundAt(s, listing, n)
           && ScannedTo(s, t.(rows := t.rows[ids[n] := ImportedRow(slug, s.bundles[slug])]), listing, ids, n + 1)
           && ExistingAt(s, listing, n + 1, existing + {slug})
  {
    hide Translated, Taken, AreFresh;
    var slug := listing[n];
    assert FoundAt(s, listing, n) <==> slug in s.bundles && slug !in existing;
    ExistingNext(s, listing, n, existing);
    if FoundAt(s, listing, n) {
      ScanAdds(s, t, listing, ids, n);
    } else {
      ScanSkips(s, t, listing, ids, n);
    }
  }

  lemma ExistingNext(s: Store, listing: seq<string>, n: nat, existing: set<string>)
    requires n < |listing| && ExistingAt(s, listing, n, existing)
    ensures
      var slug := listing[n];
      ExistingAt(s, listing, n + 1, if slug in s.bundles then existing + {slug} else existing)
  {
    hide Taken;
    var slug := listing[n];
    var after := if slug in s.bundles then existing + {slug} else existing;
    forall x
      ensures x in after <==>
              Taken(s.rows, x) || (x in s.bundles && exists j :: 0 <= j < n + 1 && listing[j] == x)
    {
      if exists j :: 0 <= j < n + 1 && listing[j] == x {
        var j :| 0 <= j < n + 1 && listing[j] == x;
        if j < n { assert exists k :: 0 <= k < n && listing[k] == x; }
      }
      if x == slug { assert listing[n] == x; }
    }
  }

  lemma ScanSkips(s: Store, t: Store, listing: seq<string>, ids: seq<nat>, n: nat)
    requires n < |listing| <= |ids| && ScannedTo(s, t, listing, ids, n) && !FoundAt(s, listing, n)
    ensures ScannedTo(s, t, listing, ids, n + 1)
  {
    hide ImportedFrom, FoundAt;
  }

  lemma ScanAdds(s: Store, t: Store, listing: seq<string>, ids: seq<nat>, n: nat)
    requires n < |listing| <= |ids| && AreFresh(s.rows, ids)
    requires ScannedTo(s, t, listing, ids, n) && FoundAt(s, listing, n)
    ensures
      var row := ImportedRow(listing[n], s.bundles[listing[n]]);
      ScannedTo(s, t.(rows := t.rows[ids[n] := row]), listing, ids, n + 1)
  {
    var row := ImportedRow(listing[n], s.bundles[listing[n]]);
    var u := t.(rows := t.rows[ids[n] := row]);
    assert ImportedFrom(s, listing, ids, ids[n], row, n);
    FreshAt(s.rows, ids, n);
    hide ImportedFrom, FoundAt, Translated, AreFresh;
    forall k | k in u.rows && k !in s.rows
      ensures exists i: nat :: i < n + 1 && ImportedFrom(s, listing, ids, k, u.rows[k], i)
    {
      if k != ids[n] {
        var i: nat :| i < n && ImportedFrom(s, listing, ids, k, t.rows[k], i);
      }
    }
  }

  lemma FreshAt(rows: map<nat, Row>, ids: seq<nat>, n: nat)
    requires n < |ids| && AreFresh(rows, ids)
    ensures ids[n] !in rows && forall i :: 0 <= i < n ==> ids[i] != ids[n]
  {
  }

  lemma {:induction false} ImportScans(s: Store, t: Store, listing: seq<string>, ids: seq<nat>, n: nat,
                                       existing: set<string>)
    requires n <= |listing| <= |ids| && AreFresh(s.rows, ids)
    requires ScannedTo(s, t, listing, ids, n) && ExistingAt(s, listing, n, existing)
    ensures ScannedTo(s, Import(t, listing[n..], ids[n..], existing), listing, ids, |listing|)
    decreases |listing| - n
  {
    hide ScannedTo, ExistingAt, AreFresh, FoundAt, Import, Translated;
    assert t.bundles == s.bundles by { SameBundles(s, t, listing, ids, n); }
    if n == |listing| {
      ImportDone(t, listing, ids, existing);
    } else {
      var slug := listing[n];
      ScanStep(s, t, listing, ids, n, existing);
      ImportNext(t, listing, ids, existing, n);
      if slug !in s.bundles || slug in existing {
        ImportScans(s, t, listing, ids, n + 1, existing);
      } else {
        ImportScans(s, t.(rows := t.rows[ids[n] := ImportedRow(slug, s.bundles[slug])]), listing, ids, n + 1,
                    existing + {slug});
      }
    }
  }

  lemma SameBundles(s: Store, t: Store, listing: seq<string>, ids: seq<nat>, n: nat)
    requires n <= |listing| <= |ids| && ScannedTo(s, t, listing, ids, n)
    ensures t.bundles == s.bundles
  {
  }

  lemma ScanStarts(s: Store, listing: seq<string>, ids: seq<nat>)
    requires |listing| <= |ids|
    ensures ScannedTo(s, s, listing, ids, 0) && ExistingAt(s, listing, 0, Slugs(s.rows))
    ensures listing[0..] == listing && ids[0..] == ids
  {
    forall slug ensures Taken(s.rows, slug) <==> slug in Slugs(s.rows) { NotTaken(s.rows, slug); }
  }

  /** A scan keeps every row, bundle, seed and directory, and adds exactly one row for each bundle
      the listing shows that had none, with the texts of its files as Python reads them. */
  lemma ScanImports(s: Store, listing: seq<string>, ids: seq<nat>)
    requires |listing| <= |ids| && AreFresh(s.rows, ids)
    ensures
      var t := Apply(s, Scan(listing, ids));
      && t.bundles == s.bundles && t.seed == s.seed && t.active == s.active && t.dirs == s.dirs && t.boot == s.boot
      && (forall k :: k in s.rows ==> k in t.rows && t.rows[k] == s.rows[k])
      && (forall k :: k in t.rows && k !in s.rows ==> ImportsRow(s, listing, ids, k, t.rows[k]))
      && (forall i: nat :: FoundAt(s, listing, i) ==>
            ids[i] in t.rows && ImportedFrom(s, listing, ids, ids[i], t.rows[ids[i]], i))
  {
    hide AreFresh, FoundAt, Import, Translated, ExistingAt, Slugs, ImportedFrom;
    ScanStarts(s, listing, ids);
    ImportScans(s, s, listing, ids, 0, Slugs(s.rows));
    FoundInside(s, listing);
  }

  lemma FoundInside(s: Store, listing: seq<string>)
    ensures forall i: nat :: FoundAt(s, listing, i) ==> i < |listing|
  {
  }

  // ---- Reading a file ---------------------------------------------------

  /** Line by line: a carriage return, with or without a line feed after it, is read as a line
      feed, and everything else as it is. */
  lemma {:induction false} TranslatedLine(line: string, rest: string)
    requires '\r' !in line
    ensures Translated(line) == line
    ensures Translated(line + "\r\n" + rest) == line + "\n" + Translated(rest)
    ensures (rest == "" || rest[0] != '\n') ==>
              Translated(line + "\r" + rest) == line + "\n" + Translated(rest)
  {
    if line == "" {
      assert "" + "\r\n" + rest == "\r\n" + rest && ("\r\n" + rest)[2..] == rest;
      assert "" + "\r" + rest == "\r" + rest && ("\r" + rest)[1..] == rest;
      assert "" + "\n" + Translated(rest) == "\n" + Translated(rest);
    } else {
      TranslatedLine(line[1..], rest);
      TranslatedChar(line[0], line[1..]);
      TranslatedChar(line[0], line[1..] + "\r\n" + rest);
      TranslatedChar(line[0], line[1..] + "\r" + rest);
      FirstOff(line, "\r\n" + rest);
      FirstOff(line, "\r" + rest);
      FirstOff(line, "\n" + Translated(rest));
      ThreePieces(line, "\r\n", rest);
      ThreePieces(line, "\r", rest);
      ThreePieces(line, "\n", Translated(rest));
    }
  }

  lemma TranslatedChar(c: char, t: string)
    requires c != '\r'
    ensures Translated([c] + t) == [c] + Translated(t)
  {
    assert ([c] + t)[1..] == t;
  }

  lemma FirstOff(line: string, more: string)
    requires line != ""
    ensures line == [line[0]] + line[1..] && line + more == [line[0]] + (line[1..] + more)
  {
  }

  lemma ThreePieces(line: string, mid: string, rest: string)
    requires line != ""
    ensures line + mid + rest == line + (mid + rest)
    ensures line[1..] + mid + rest == line[1..] + (mid + rest)
  {
  }

  // ---- Runs -------------------------------------------------------------

  /** The operation writes this row under this id. */
  ghost predicate Saves(s: Store, op: Op, id: nat, row: Row) {
    match op
    case Create(k, slug, content, meta) =>
      k == id && id !in s.rows && !Taken(s.rows, slug)
      && row.slug == slug && row.content == content && row.meta == meta
    case Update(k, content, meta) =>
      k == id && id in s.rows && row.slug == s.rows[id].slug && row.content == content && row.meta == meta
    case Scan(listing, ids) =>
      |listing| <= |ids| && AreFresh(s.rows, ids) && ImportsRow(s, listing, ids, id, row)
    case _ => false
  }

  /** The row an operation leaves under an id is the one it wrote, or the one that was there and
      the operation wrote none. */
  lemma StepSaves(s: Store, op: Op, id: nat)
    requires id in Apply(s, op).rows
    ensures
      var row := Apply(s, op).rows[id];
      || Saves(s, op, id, row)
      || (id in s.rows && row == s.rows[id] && forall other :: !Saves(s, op, id, other))
  {
    hide Translated, Taken, AreFresh, FoundAt, Import, Slugs, ImportsRow, NotBundles;
    if op.Scan? {
      if |op.ids| >= |op.listing| && AreFresh(s.rows, op.ids) {
        ScanImports(s, op.listing, op.ids);
        if id in s.rows {
          forall other ensures !ImportsRow(s, op.listing, op.ids, id, other) {
            FreshRow(s, op.listing, op.ids, id, other);
          }
        }
      }
    } else if !op.Drop? {
      OperationsSave(s, op);
      CreateTaken(s, op);
    }
  }

  lemma CreateTaken(s: Store, op: Op)
    ensures op.Create? ==> (Taken(s.rows, op.slug) <==> exists k :: k in s.rows && s.rows[k].slug == op.slug)
  {
  }

  lemma FreshRow(s: Store, listing: seq<string>, ids: seq<nat>, id: nat, row: Row)
    requires id in s.rows && AreFresh(s.rows, ids)
    ensures !ImportsRow(s, listing, ids, id, row)
  {
  }

  /** No operation from place i on writes a row under this id. */
  ghost predicate NoneSaves(s: Store, ops: seq<Op>, i: nat, id: nat) {
    forall j, row :: i <= j < |ops| ==> !Saves(Run(s, ops[..j]), ops[j], id, row)
  }

  /** Operation i wrote this row, and none did after it. */
  ghost predicate LastSaved(s: Store, ops: seq<Op>, i: nat, id: nat, row: Row) {
    i < |ops| && Saves(Run(s, ops[..i]), ops[i], id, row) && NoneSaves(s, ops, i + 1, id)
  }

  lemma {:induction false} RunSnoc(s: Store, ops: seq<Op>, op: Op)
    ensures Run(s, ops + [op]) == Apply(Run(s, ops), op)
    decreases |ops|
  {
    hide Apply;
    if ops == [] {
      assert ([] + [op])[1..] == [];
      assert Run(Apply(s, op), []) == Apply(s, op);
    } else {
      assert (ops + [op])[1..] == ops[1..] + [op] && (ops + [op])[0] == ops[0];
      RunSnoc(Apply(s, ops[0]), ops[1..], op);
    }
  }

  lemma NoneSavesLonger(s: Store, front: seq<Op>, op: Op, i: nat, id: nat)
    requires i <= |front| && NoneSaves(s, front, i, id)
    requires forall row :: !Saves(Run(s, front), op, id, row)
    ensures NoneSaves(s, front + [op], i, id)
  {
    hide Saves, Run;
    var ops := front + [op];
    forall j, row | i <= j < |ops| ensures !Saves(Run(s, ops[..j]), ops[j], id, row) {
      if j < |front| { assert ops[..j] == front[..j]; } else { assert ops[..j] == front; }
    }
  }

  lemma {:induction false} RunSaves(s: Store, ops: seq<Op>, id: nat)
    requires id in Run(s, ops).rows
    ensures
      var row := Run(s, ops).rows[id];
      || (exists i: nat :: LastSaved(s, ops, i, id, row))
      || (id in s.rows && row == s.rows[id] && NoneSaves(s, ops, 0, id))
    decreases |ops|
  {
    if ops != [] {
      var front, op := ops[..|ops| - 1], ops[|ops| - 1];
      assert ops == front + [op] && ops[..|front|] == front;
      hide Run, Apply, Saves;
      RunSnoc(s, front, op);
      var u := Run(s, front);
      var row := Apply(u, op).rows[id];
      StepSaves(u, op, id);
      if Saves(u, op, id, row) {
        assert LastSaved(s, ops, |front|, id, row);
      } else {
        RunSaves(s, front, id);
        if i: nat :| LastSaved(s, front, i, id, row) {
          NoneSavesLonger(s, front, op, i + 1, id);
          assert ops[..i] == front[..i];
          assert LastSaved(s, ops, i, id, row);
        } else {
          NoneSavesLonger(s, front, op, 0, id);
        }
      }
    }
  }

  /** Over every run from an empty version, bundles from outside included: each row holds the
      content and the meta of the last operation that wrote it, a create, an update or an import;
      its bundle is on the disk, and when it is the active one the seed is that bundle. */
  lemma RowsHoldLastSave(s: Store, ops: seq<Op>, id: nat)
    requires IsEmpty(s) && id in Run(s, ops).rows
    ensures
      var t := Run(s, ops);
      && (exists i: nat :: LastSaved(s, ops, i, id, t.rows[id]))
      && t.rows[id].slug in t.bundles
      && (t.active == Some(id) ==>
            && t.seed.user == Some(t.bundles[t.rows[id].slug].user)
            && t.seed.meta == Some(t.bundles[t.rows[id].slug].meta))
  {
    assert Aligned(s);
    RunAligned(s, ops);
    hide Run, LastSaved, NoneSaves;
    RunSaves(s, ops, id);
  }
}
