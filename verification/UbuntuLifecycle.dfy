/** The cloud-init configurations of one Ubuntu version: the rows of the database, the
    bundle directories on disk, and the seed published in the boot directory. */
module UbuntuLifecycle {
  import opened Text
  import opened Url

  /** The `user-data` and `meta-data` of a bundle directory. */
  datatype Bundle = Bundle(user: string, meta: string)

  datatype Row = Row(slug: string, content: string, meta: string)

  /** The two seed files at the root of the boot directory. */
  datatype Seed = Seed(user: Option<string>, meta: Option<string>)

  const NO_SEED := Seed(None, None)

  /** Everything about one version. `boot` says that the release was extracted, and `dirs`
      names the directories inside its boot directory. */
  datatype Store = Store(
    rows: map<nat, Row>, bundles: map<string, Bundle>, seed: Seed, active: Option<nat>, boot: bool,
    dirs: set<string>)

  const BUNDLE_PREFIX := "conf-cloudInit-"

  /** The directories that are not bundles published in an older layout. */
  function NotBundles(dirs: set<string>): set<string> { set d | d in dirs && !StartsWith(d, BUNDLE_PREFIX) }

  /** What administrators do. A created row takes an unused id; `Drop` is a bundle directory
      put on the disk from outside. */
  datatype Op =
    | Create(id: nat, slug: string, content: string, meta: string)
    | Update(id: nat, content: string, meta: string)
    | Activate(id: nat)
    | Clear
    | Delete(id: nat)
    | Scan(listing: seq<string>, ids: seq<nat>)
    | Drop(slug: string, bundle: Bundle)

  // ---- Files ------------------------------------------------------------

  /** Reading a text file turns every line ending into a line feed. */
  function Translated(t: string): string {
    if t == "" then ""
    else if t[0] == '\r' then "\n" + Translated(if |t| >= 2 && t[1] == '\n' then t[2..] else t[1..])
    else [t[0]] + Translated(t[1..])
  }

  function SeedOf(b: Bundle): Seed { Seed(Some(b.user), Some(b.meta)) }

  function ImportedRow(slug: string, b: Bundle): Row { Row(slug, Translated(b.user), Translated(b.meta)) }

  predicate Taken(rows: map<nat, Row>, slug: string) { exists id :: id in rows && rows[id].slug == slug }

  function Slugs(rows: map<nat, Row>): set<string> { set id | id in rows :: rows[id].slug }

  function WithoutKey<K, V>(m: map<K, V>, k: K): map<K, V> { map x | x in m && x != k :: m[x] }

  // ---- One operation ----------------------------------------------------

  /** Publication copies the bundle to the boot directory; it fails without either. */
  function Publish(s: Store, slug: string): Option<Store> {
    if slug !in s.bundles || !s.boot then None
    else Some(s.(seed := SeedOf(s.bundles[slug]), dirs := NotBundles(s.dirs)))
  }

  function Republish(s: Store, id: nat, slug: string): Store {
    if s.active == Some(id) && Publish(s, slug).Some? then Publish(s, slug).value else s
  }

  function Cleared(s: Store): Store {
    if s.boot then s.(seed := NO_SEED, dirs := NotBundles(s.dirs)) else s
  }

  /** Bundles without a row become rows, in the order of the listing. */
  function Import(s: Store, listing: seq<string>, ids: seq<nat>, existing: set<string>): Store
    requires |ids| >= |listing|
    decreases |listing|
  {
    if listing == [] then s
    else
      var slug := listing[0];
      if slug !in s.bundles || slug in existing then Import(s, listing[1..], ids[1..], existing)
      else
        Import(s.(rows := s.rows[ids[0] := ImportedRow(slug, s.bundles[slug])]), listing[1..], ids[1..],
               existing + {slug})
  }

  lemma ImportNext(s: Store, listing: seq<string>, ids: seq<nat>, existing: set<string>, i: nat)
    requires i < |listing| <= |ids|
    ensures
      var slug := listing[i];
      Import(s, listing[i..], ids[i..], existing) ==
      if slug !in s.bundles || slug in existing then Import(s, listing[i + 1..], ids[i + 1..], existing)
      else
        Import(s.(rows := s.rows[ids[i] := ImportedRow(slug, s.bundles[slug])]), listing[i + 1..], ids[i + 1..],
               existing + {slug})
  {
    hide ImportedRow;
    assert listing[i..][1..] == listing[i + 1..] && ids[i..][1..] == ids[i + 1..];
  }

  lemma ImportDone(s: Store, listing: seq<string>, ids: seq<nat>, existing: set<string>)
    requires |listing| <= |ids|
    ensures Import(s, listing[|listing|..], ids[|listing|..], existing) == s
    ensures listing[0..] == listing && ids[0..] == ids
  {
  }

  /** Ids the database can hand out: unused and different. */
  predicate AreFresh(rows: map<nat, Row>, ids: seq<nat>) {
    && (forall i :: 0 <= i < |ids| ==> ids[i] !in rows)
    && (forall i, j :: 0 <= i < j < |ids| ==> ids[i] != ids[j])
  }

  lemma FreshTail(rows: map<nat, Row>, ids: seq<nat>, i: nat, row: Row)
    requires i < |ids| && AreFresh(rows, ids[i..])
    ensures ids[i] !in rows && AreFresh(rows, ids[i + 1..]) && AreFresh(rows[ids[i] := row], ids[i + 1..])
  {
    var tail, rest := ids[i..], ids[i + 1..];
    assert tail[0] == ids[i];
    assert forall j :: 0 <= j < |rest| ==> rest[j] == tail[j + 1];
  }

  predicate Enabled(s: Store, op: Op) {
    match op
    case Create(id, slug, _, _) => id !in s.rows && !Taken(s.rows, slug)
    case Update(id, _, _) => id in s.rows
    case Activate(id) => id in s.rows && Publish(s, s.rows[id].slug).Some?
    case Delete(id) => id in s.rows
    case Scan(listing, ids) => |ids| >= |listing| && AreFresh(s.rows, ids)
    case Drop(slug, _) => slug !in s.bundles
    case Clear => true
  }

  /** The store after an operation; one that is refused changes nothing. */
  function Apply(s: Store, op: Op): Store {
    if !Enabled(s, op) then s
    else
      match op
      case Create(id, slug, content, meta) =>
        Republish(s.(rows := s.rows[id := Row(slug, content, meta)],
                     bundles := s.bundles[slug := Bundle(content, meta)]), id, slug)
      case Update(id, content, meta) =>
        var slug := s.rows[id].slug;
        Republish(s.(rows := s.rows[id := Row(slug, content, meta)],
                     bundles := s.bundles[slug := Bundle(content, meta)]), id, slug)
      case Activate(id) => Publish(s, s.rows[id].slug).value.(active := Some(id))
      case Clear => Cleared(s.(active := None))
      case Delete(id) =>
        var gone := s.(bundles := WithoutKey(s.bundles, s.rows[id].slug), rows := WithoutKey(s.rows, id));
        if s.active == Some(id) then Cleared(gone.(active := None)) else gone
      case Scan(listing, ids) => Import(s, listing, ids, Slugs(s.rows))
      case Drop(slug, b) => s.(bundles := s.bundles[slug := b])
  }

  function Run(s: Store, ops: seq<Op>): Store
    decreases |ops|
  {
    if ops == [] then s else Run(Apply(s, ops[0]), ops[1..])
  }

  // ---- What an operation leaves behind ----------------------------------

  ghost predicate OtherRowsKept(s: Store, t: Store, id: nat) {
    forall k :: k != id ==> (k in t.rows <==> k in s.rows) && (k in s.rows ==> t.rows[k] == s.rows[k])
  }

  ghost predicate OtherBundlesKept(s: Store, t: Store, slug: string) {
    forall d :: d != slug ==> (d in t.bundles <==> d in s.bundles) && (d in s.bundles ==> t.bundles[d] == s.bundles[d])
  }

  /** The older bundle directories are gone from the boot directory, and nothing else. */
  ghost predicate DirsCleaned(s: Store, t: Store) {
    forall d :: d in t.dirs <==> d in s.dirs && !StartsWith(d, "conf-cloudInit-")
  }

  /** Row and bundle hold what was saved; the seed too when the configuration is active. All else
      is as it was. */
  ghost predicate IsSaved(s: Store, t: Store, id: nat, slug: string, content: string, meta: string) {
    && id in t.rows && t.rows[id].slug == slug && t.rows[id].content == content && t.rows[id].meta == meta
    && slug in t.bundles && t.bundles[slug].user == content && t.bundles[slug].meta == meta
    && OtherRowsKept(s, t, id) && OtherBundlesKept(s, t, slug) && t.active == s.active && t.boot == s.boot
    && if s.active == Some(id) && s.boot
       then t.seed.user == Some(content) && t.seed.meta == Some(meta) && DirsCleaned(s, t)
       else t.seed == s.seed && t.dirs == s.dirs
  }

  /** The seed holds the bundle of the configuration, which is active; rows and bundles are as
      they were. */
  ghost predicate IsActivated(s: Store, t: Store, id: nat) {
    && id in s.rows && s.rows[id].slug in s.bundles && s.boot
    && t.active == Some(id) && t.rows == s.rows && t.bundles == s.bundles && t.boot == s.boot
    && t.seed.user == Some(s.bundles[s.rows[id].slug].user)
    && t.seed.meta == Some(s.bundles[s.rows[id].slug].meta)
    && DirsCleaned(s, t)
  }

  /** Nothing is active, and an extracted release has no seed. */
  ghost predicate IsCleared(s: Store, t: Store) {
    && t.active == None && t.boot == s.boot
    && if s.boot then t.seed.user == None && t.seed.meta == None && DirsCleaned(s, t)
       else t.seed == s.seed && t.dirs == s.dirs
  }

  /** Row and bundle are gone, and so is the seed when it was theirs. */
  ghost predicate IsDeleted(s: Store, t: Store, id: nat) {
    && id in s.rows && id !in t.rows && s.rows[id].slug !in t.bundles
    && OtherRowsKept(s, t, id) && OtherBundlesKept(s, t, s.rows[id].slug)
    && if s.active == Some(id) then IsCleared(s, t)
       else t.active == s.active && t.seed == s.seed && t.dirs == s.dirs && t.boot == s.boot
  }

  // ---- The version as an object -----------------------------------------

  class UbuntuVersion {
    var rows: map<nat, Row>
    var bundles: map<string, Bundle>
    var userSeed: Option<string>
    var metaSeed: Option<string>
    var active: Option<nat>
    var dirs: set<string>
    const boot: bool

    constructor (boot: bool, dirs: set<string>)
      ensures Now() == Store(map[], map[], NO_SEED, None, boot, dirs)
    {
      rows, bundles := map[], map[];
      userSeed, metaSeed := None, None;
      active := None;
      this.boot := boot;
      this.dirs := dirs;
    }

    function Now(): Store
      reads this
    {
      Store(rows, bundles, Seed(userSeed, metaSeed), active, boot, dirs)
    }

    method ClearSeed()
      modifies this
      ensures Now() == Cleared(old(Now()))
    {
      if boot {
        userSeed := None;
        metaSeed := None;
        dirs := NotBundles(dirs);
      }
    }

    method PublishBundle(slug: string) returns (ok: bool)
      modifies this
      ensures ok <==> Publish(old(Now()), slug).Some?
      ensures Now() == if ok then Publish(old(Now()), slug).value else old(Now())
    {
      if slug !in bundles || !boot {
        return false;
      }
      ClearSeed();
      userSeed := Some(bundles[slug].user);
      metaSeed := Some(bundles[slug].meta);
      ok := true;
    }

    method RepublishIfActive(id: nat, slug: string)
      modifies this
      ensures Now() == Republish(old(Now()), id, slug)
    {
      if active == Some(id) {
        var _ := PublishBundle(slug);
      }
    }

    method CreateConfig(id: nat, slug: string, content: string, meta: string)
      requires id !in rows
      modifies this
      ensures Now() == Apply(old(Now()), Create(id, slug, content, meta))
      ensures if exists k :: k in old(rows) && old(rows)[k].slug == slug then Now() == old(Now())
              else IsSaved(old(Now()), Now(), id, slug, content, meta)
    {
      if Taken(rows, slug) {
        return;
      }
      rows := rows[id := Row(slug, content, meta)];
      bundles := bundles[slug := Bundle(content, meta)];
      RepublishIfActive(id, slug);
    }

    method UpdateConfig(id: nat, content: string, meta: string)
      modifies this
      ensures Now() == Apply(old(Now()), Update(id, content, meta))
      ensures if id in old(rows) then IsSaved(old(Now()), Now(), id, old(rows)[id].slug, content, meta)
              else Now() == old(Now())
    {
      if id !in rows {
        return;
      }
      var slug := rows[id].slug;
      rows := rows[id := Row(slug, content, meta)];
      bundles := bundles[slug := Bundle(content, meta)];
      RepublishIfActive(id, slug);
    }

    method ActivateConfig(id: nat) returns (ok: bool)
      modifies this
      ensures Now() == Apply(old(Now()), Activate(id))
      ensures ok <==> id in old(rows) && old(rows)[id].slug in old(bundles) && boot
      ensures if ok then IsActivated(old(Now()), Now(), id) else Now() == old(Now())
    {
      if id !in rows {
        return false;
      }
      ok := PublishBundle(rows[id].slug);
      if ok {
        active := Some(id);
      }
    }

    method ClearActive()
      modifies this
      ensures Now() == Apply(old(Now()), Clear)
      ensures IsCleared(old(Now()), Now()) && rows == old(rows) && bundles == old(bundles)
    {
      active := None;
      ClearSeed();
    }

    method DeleteConfig(id: nat)
      modifies this
      ensures Now() == Apply(old(Now()), Delete(id))
      ensures if id in old(rows) then IsDeleted(old(Now()), Now(), id) else Now() == old(Now())
    {
      if id !in rows {
        return;
      }
      var wasActive := active == Some(id);
      bundles := WithoutKey(bundles, rows[id].slug);
      rows := WithoutKey(rows, id);
      if wasActive {
        active := None;
        ClearSeed();
      }
    }

    /** Imports what the listing of the bundle directories shows and no row points to. */
    method ScanAndImport(listing: seq<string>, ids: seq<nat>) returns (imported: nat, skipped: nat)
      requires |ids| >= |listing| && AreFresh(rows, ids)
      modifies this
      ensures Now() == Apply(old(Now()), Scan(listing, ids))
      ensures |rows| == |old(rows)| + imported && imported + skipped <= |listing|
    {
      hide Translated, NotBundles, Slugs, Taken, Republish, Cleared, WithoutKey, Import;
      var existing := Slugs(rows);
      imported, skipped := 0, 0;
      var i := 0;
      assert listing[0..] == listing && ids[0..] == ids;
      while i < |listing|
        invariant 0 <= i <= |listing| && imported + skipped <= i
        invariant AreFresh(rows, ids[i..]) && |rows| == |old(rows)| + imported
        invariant Import(Now(), listing[i..], ids[i..], existing) ==
                  Import(old(Now()), listing, ids, old(Slugs(rows)))
      {
        var slug := listing[i];
        ImportNext(Now(), listing, ids, existing, i);
        FreshTail(rows, ids, i, if slug in bundles then ImportedRow(slug, bundles[slug]) else Row("", "", ""));
        if slug in bundles {
          if slug in existing {
            skipped := skipped + 1;
          } else {
            rows := rows[ids[i] := ImportedRow(slug, bundles[slug])];
            existing := existing + {slug};
            imported := imported + 1;
          }
        }
        i := i + 1;
      }
      ImportDone(Now(), listing, ids, existing);
    }
  }

  // ---- What every operation keeps ---------------------------------------

  /** The seed is the active configuration's bundle, and no bundle directory of an older layout
      lies beside it; or it is absent; rows have bundles of their own. */
  ghost predicate Aligned(s: Store) {
    && (forall id :: id in s.rows ==> s.rows[id].slug in s.bundles)
    && (forall a, b :: a in s.rows && b in s.rows && s.rows[a].slug == s.rows[b].slug ==> a == b)
    && match s.active
       case None => s.seed == NO_SEED
       case Some(id) =>
         && s.boot && id in s.rows && s.seed == SeedOf(s.bundles[s.rows[id].slug])
         && NotBundles(s.dirs) == s.dirs
  }

  /** Every bundle holds exactly what its row says. */
  ghost predicate Faithful(s: Store) {
    forall id :: id in s.rows && s.rows[id].slug in s.bundles ==>
      s.bundles[s.rows[id].slug] == Bundle(s.rows[id].content, s.rows[id].meta)
  }

  /** Every bundle belongs to a row. */
  ghost predicate Claimed(s: Store) { forall slug :: slug in s.bundles ==> Taken(s.rows, slug) }

  lemma {:induction false} ImportAligned(s: Store, listing: seq<string>, ids: seq<nat>, existing: set<string>)
    requires |ids| >= |listing| && AreFresh(s.rows, ids) && Aligned(s) && existing == Slugs(s.rows)
    ensures Aligned(Import(s, listing, ids, existing))
    decreases |listing|
  {
    if listing != [] {
      var slug, rest := listing[0], ids[1..];
      assert forall i :: 0 <= i < |rest| ==> rest[i] == ids[i + 1];
      if slug !in s.bundles || slug in existing {
        ImportAligned(s, listing[1..], rest, existing);
      } else {
        var t := s.(rows := s.rows[ids[0] := ImportedRow(slug, s.bundles[slug])]);
        SlugsAdd(s.rows, ids[0], ImportedRow(slug, s.bundles[slug]));
        assert forall id :: id in s.rows ==> s.rows[id].slug in existing;
        assert Aligned(t);
        ImportAligned(t, listing[1..], rest, existing + {slug});
      }
    }
  }

  lemma SlugsAdd(rows: map<nat, Row>, id: nat, row: Row)
    requires id !in rows
    ensures Slugs(rows[id := row]) == Slugs(rows) + {row.slug}
  {
    var more := rows[id := row];
    assert more[id] == row;
    forall slug | slug in Slugs(rows) + {row.slug} ensures slug in Slugs(more) {
      if slug in Slugs(rows) {
        var a :| a in rows && rows[a].slug == slug;
        assert a in more && more[a].slug == slug;
      }
    }
  }

  /** A scan of a store whose bundles all have rows imports nothing. */
  lemma {:induction false} ImportNothing(s: Store, listing: seq<string>, ids: seq<nat>, existing: set<string>)
    requires |ids| >= |listing| && Claimed(s) && Slugs(s.rows) <= existing
    ensures Import(s, listing, ids, existing) == s
    decreases |listing|
  {
    if listing != [] {
      var slug := listing[0];
      if slug in s.bundles {
        assert Taken(s.rows, slug);
        assert slug in Slugs(s.rows);
      }
      ImportNothing(s, listing[1..], ids[1..], existing);
    }
  }

  /** Every operation, bundles from outside included, keeps the seed aligned. */
  lemma ApplyAligned(s: Store, op: Op)
    requires Aligned(s)
    ensures Aligned(Apply(s, op))
  {
    if Enabled(s, op) && op.Scan? {
      ImportAligned(s, op.listing, op.ids, Slugs(s.rows));
    }
  }

  /** Every operation of the application keeps bundles and rows the same. */
  lemma ApplyFaithful(s: Store, op: Op)
    requires Aligned(s) && Faithful(s) && Claimed(s) && !op.Drop?
    ensures Faithful(Apply(s, op)) && Claimed(Apply(s, op))
  {
    hide Translated, NotBundles, Taken, Slugs, Import;
    if Enabled(s, op) {
      match op
      case Scan(listing, ids) => ImportNothing(s, listing, ids, Slugs(s.rows));
      case Create(id, slug, content, meta) => CreateClaimed(s, id, Row(slug, content, meta));
      case Update(id, content, meta) => CreateClaimed(s, id, Row(s.rows[id].slug, content, meta));
      case Delete(id) => DeleteClaimed(s, id);
      case _ =>
    }
  }

  lemma CreateClaimed(s: Store, id: nat, row: Row)
    requires Claimed(s) && (id !in s.rows || s.rows[id].slug == row.slug)
    ensures
      Claimed(s.(rows := s.rows[id := row], bundles := s.bundles[row.slug := Bundle(row.content, row.meta)]))
  {
    var rows := s.rows[id := row];
    assert rows[id].slug == row.slug;
    forall slug | slug in s.bundles ensures Taken(rows, slug) {
      var a :| a in s.rows && s.rows[a].slug == slug;
      assert a in rows && rows[a].slug == slug;
    }
  }

  lemma DeleteClaimed(s: Store, id: nat)
    requires Claimed(s) && id in s.rows
    ensures Claimed(s.(bundles := WithoutKey(s.bundles, s.rows[id].slug), rows := WithoutKey(s.rows, id)))
  {
    var rows := WithoutKey(s.rows, id);
    forall slug | slug in s.bundles && slug != s.rows[id].slug ensures Taken(rows, slug) {
      var a :| a in s.rows && s.rows[a].slug == slug;
      assert a in rows && rows[a].slug == slug;
    }
  }

  // ---- Main results -----------------------------------------------------

  predicate IsEmpty(s: Store) { s.rows == map[] && s.bundles == map[] && s.seed == NO_SEED && s.active.None? }

  predicate NoDrop(ops: seq<Op>) { forall i :: 0 <= i < |ops| ==> !ops[i].Drop? }

  /** Over every run, with foreign bundles appearing at any time, the published seed is the
      bundle of the active configuration, alone in the boot directory, or absent when none is
      active. */
  lemma {:induction false} RunAligned(s: Store, ops: seq<Op>)
    requires Aligned(s)
    ensures Aligned(Run(s, ops))
    decreases |ops|
  {
    if ops != [] {
      ApplyAligned(s, ops[0]);
      RunAligned(Apply(s, ops[0]), ops[1..]);
    }
  }

  lemma {:induction false} RunFaithful(s: Store, ops: seq<Op>)
    requires Aligned(s) && Faithful(s) && Claimed(s) && NoDrop(ops)
    ensures Faithful(Run(s, ops)) && Claimed(Run(s, ops))
    decreases |ops|
  {
    if ops != [] {
      ApplyAligned(s, ops[0]);
      ApplyFaithful(s, ops[0]);
      RunFaithful(Apply(s, ops[0]), ops[1..]);
    }
  }

  /** Over every run from an empty version in which only the application writes, every bundle
      on disk is its row, the seed is the active row's content or absent, and a scan imports
      nothing. */
  lemma CleanRun(s: Store, ops: seq<Op>, listing: seq<string>, ids: seq<nat>)
    requires IsEmpty(s) && NoDrop(ops)
    ensures
      var t := Run(s, ops);
      && (forall id :: id in t.rows ==>
            t.rows[id].slug in t.bundles &&
            t.bundles[t.rows[id].slug] == Bundle(t.rows[id].content, t.rows[id].meta))
      && (forall slug :: slug in t.bundles ==> Taken(t.rows, slug))
      && (match t.active
          case None => t.seed == NO_SEED
          case Some(id) =>
            id in t.rows && t.seed == Seed(Some(t.rows[id].content), Some(t.rows[id].meta)))
      && Apply(t, Scan(listing, ids)) == t
  {
    RunAligned(s, ops);
    RunFaithful(s, ops);
    var t := Run(s, ops);
    if |ids| >= |listing| {
      ImportNothing(t, listing, ids, Slugs(t.rows));
    }
  }

  // ---- Foreign bundles --------------------------------------------------

  lemma {:induction false} TranslatedSame(t: string)
    ensures Translated(t) == t <==> '\r' !in t
    decreases |t|
  {
    if t != "" {
      assert t == [t[0]] + t[1..];
      if t[0] == '\r' {
        assert Translated(t)[0] == '\n';
      } else {
        TranslatedSame(t[1..]);
        assert Translated(t)[1..] == Translated(t[1..]);
      }
    }
  }

  predicate Plain(b: Bundle) { '\r' !in b.user && '\r' !in b.meta }

  /** Importing a foreign bundle makes a row equal to it exactly when it has no carriage
      return: reading translates line endings, copying to the seed does not. */
  lemma ImportIsFaithful(slug: string, b: Bundle)
    ensures Bundle(ImportedRow(slug, b).content, ImportedRow(slug, b).meta) == b <==> Plain(b)
  {
    TranslatedSame(b.user);
    TranslatedSame(b.meta);
  }

  /** The bundles no row points to have no carriage return. */
  ghost predicate WaitingPlain(s: Store) {
    forall slug :: slug in s.bundles && !Taken(s.rows, slug) ==> Plain(s.bundles[slug])
  }

  lemma ImportOneFaithful(s: Store, slug: string, id: nat)
    requires Faithful(s) && WaitingPlain(s) && id !in s.rows && slug in s.bundles && !Taken(s.rows, slug)
    ensures
      var t := s.(rows := s.rows[id := ImportedRow(slug, s.bundles[slug])]);
      Faithful(t) && WaitingPlain(t)
  {
    ImportIsFaithful(slug, s.bundles[slug]);
    var rows := s.rows[id := ImportedRow(slug, s.bundles[slug])];
    hide Translated, Plain;
    forall other | other in s.bundles && !Taken(rows, other) ensures Plain(s.bundles[other]) {
      assert forall a :: a in s.rows ==> a in rows && rows[a] == s.rows[a];
    }
  }

  lemma {:induction false} ImportFaithful(s: Store, listing: seq<string>, ids: seq<nat>, existing: set<string>)
    requires |ids| >= |listing| && AreFresh(s.rows, ids) && existing == Slugs(s.rows)
    requires Faithful(s) && WaitingPlain(s)
    ensures Faithful(Import(s, listing, ids, existing)) && WaitingPlain(Import(s, listing, ids, existing))
    decreases |listing|
  {
    if listing != [] {
      var slug, rest := listing[0], ids[1..];
      assert forall i :: 0 <= i < |rest| ==> rest[i] == ids[i + 1];
      hide Faithful, WaitingPlain, Translated;
      if slug !in s.bundles || slug in existing {
        ImportFaithful(s, listing[1..], rest, existing);
      } else {
        var row := ImportedRow(slug, s.bundles[slug]);
        assert !Taken(s.rows, slug) by { NotTaken(s.rows, slug); }
        SlugsAdd(s.rows, ids[0], row);
        ImportOneFaithful(s, slug, ids[0]);
        ImportFaithful(s.(rows := s.rows[ids[0] := row]), listing[1..], rest, existing + {slug});
      }
    }
  }

  lemma NotTaken(rows: map<nat, Row>, slug: string)
    ensures Taken(rows, slug) <==> slug in Slugs(rows)
  {
  }

  lemma RowsKeepWaiting(s: Store, t: Store)
    requires WaitingPlain(s)
    requires forall slug :: slug in t.bundles && !Taken(t.rows, slug) ==>
               slug in s.bundles && !Taken(s.rows, slug) && t.bundles[slug] == s.bundles[slug]
    ensures WaitingPlain(t)
  {
    hide Plain;
  }

  lemma WriteKeepsWaiting(s: Store, id: nat, row: Row)
    requires WaitingPlain(s) && (id !in s.rows || s.rows[id].slug == row.slug)
    ensures
      WaitingPlain(s.(rows := s.rows[id := row], bundles := s.bundles[row.slug := Bundle(row.content, row.meta)]))
  {
    var t := s.(rows := s.rows[id := row], bundles := s.bundles[row.slug := Bundle(row.content, row.meta)]);
    hide Plain;
    assert t.rows[id].slug == row.slug;
    forall slug | Taken(s.rows, slug) ensures Taken(t.rows, slug) {
      var a :| a in s.rows && s.rows[a].slug == slug;
      assert a in t.rows && t.rows[a].slug == slug;
    }
    RowsKeepWaiting(s, t);
  }

  lemma DeleteKeepsWaiting(s: Store, id: nat)
    requires WaitingPlain(s) && id in s.rows
    ensures WaitingPlain(s.(bundles := WithoutKey(s.bundles, s.rows[id].slug), rows := WithoutKey(s.rows, id)))
  {
    var t := s.(bundles := WithoutKey(s.bundles, s.rows[id].slug), rows := WithoutKey(s.rows, id));
    hide Plain;
    forall slug | Taken(s.rows, slug) && slug != s.rows[id].slug ensures Taken(t.rows, slug) {
      var a :| a in s.rows && s.rows[a].slug == slug;
      assert a in t.rows && t.rows[a].slug == slug;
    }
    RowsKeepWaiting(s, t);
  }

  lemma WaitingSame(s: Store, t: Store)
    requires WaitingPlain(s) && t.rows == s.rows && t.bundles == s.bundles
    ensures WaitingPlain(t)
  {
  }

  /** Foreign bundles without carriage returns do no harm. */
  lemma ApplyWaiting(s: Store, op: Op)
    requires Aligned(s) && Faithful(s) && WaitingPlain(s) && (op.Drop? ==> Plain(op.bundle))
    ensures Faithful(Apply(s, op)) && WaitingPlain(Apply(s, op))
  {
    if Enabled(s, op) {
      hide WaitingPlain, Translated, Plain;
      match op
      case Scan(listing, ids) => ImportFaithful(s, listing, ids, Slugs(s.rows));
      case Create(id, slug, content, meta) =>
        WriteKeepsWaiting(s, id, Row(slug, content, meta));
        WaitingSame(s.(rows := s.rows[id := Row(slug, content, meta)],
                       bundles := s.bundles[slug := Bundle(content, meta)]), Apply(s, op));
      case Update(id, content, meta) =>
        var slug := s.rows[id].slug;
        WriteKeepsWaiting(s, id, Row(slug, content, meta));
        WaitingSame(s.(rows := s.rows[id := Row(slug, content, meta)],
                       bundles := s.bundles[slug := Bundle(content, meta)]), Apply(s, op));
      case Delete(id) =>
        DeleteKeepsWaiting(s, id);
        WaitingSame(s.(bundles := WithoutKey(s.bundles, s.rows[id].slug), rows := WithoutKey(s.rows, id)),
                    Apply(s, op));
      case Drop(slug, b) => DropKeepsWaiting(s, slug, b);
      case _ => WaitingSame(s, Apply(s, op));
    }
  }

  lemma DropKeepsWaiting(s: Store, slug: string, b: Bundle)
    requires WaitingPlain(s) && Plain(b)
    ensures WaitingPlain(s.(bundles := s.bundles[slug := b]))
  {
    hide Plain;
  }

  predicate PlainDrops(ops: seq<Op>) {
    forall i :: 0 <= i < |ops| ==> ops[i].Drop? ==> Plain(ops[i].bundle)
  }

  /** Over every run from an empty version whose foreign bundles have no carriage return,
      every row equals its bundle. */
  lemma {:induction false} ForeignRun(s: Store, ops: seq<Op>)
    requires Aligned(s) && Faithful(s) && WaitingPlain(s) && PlainDrops(ops)
    ensures Aligned(Run(s, ops)) && Faithful(Run(s, ops))
    decreases |ops|
  {
    if ops != [] {
      assert ops[0].Drop? ==> Plain(ops[0].bundle);
      assert PlainDrops(ops[1..]);
      hide Aligned, Faithful, WaitingPlain, Apply, Plain;
      ApplyAligned(s, ops[0]);
      ApplyWaiting(s, ops[0]);
      ForeignRun(Apply(s, ops[0]), ops[1..]);
    }
  }

  /** One carriage return is enough: once such a bundle was found and scanned, its row and
      its file differ. */
  lemma ForeignDiffers(s: Store, slug: string, b: Bundle, id: nat)
    requires Aligned(s) && slug !in s.bundles && id !in s.rows && !Plain(b)
    ensures
      var t := Run(s, [Drop(slug, b), Scan([slug], [id])]);
      id in t.rows && t.rows[id].slug == slug && slug in t.bundles && t.bundles[slug] == b && !Faithful(t)
  {
    var dropped := Apply(s, Drop(slug, b));
    TwoOps(s, Drop(slug, b), Scan([slug], [id]));
    ImportIsFaithful(slug, b);
    hide Translated, Plain;
    assert slug !in Slugs(s.rows);
    OneImport(dropped, slug, id);
  }

  lemma TwoOps(s: Store, a: Op, b: Op)
    ensures Run(s, [a, b]) == Apply(Apply(s, a), b)
  {
    hide Apply;
    assert [a, b][1..] == [b] && [b][1..] == [];
    var t := Apply(s, a);
    assert Run(t, [b]) == Run(Apply(t, b), []);
  }

  lemma OneImport(s: Store, slug: string, id: nat)
    requires slug in s.bundles && slug !in Slugs(s.rows)
    ensures Import(s, [slug], [id], Slugs(s.rows)) ==
            s.(rows := s.rows[id := ImportedRow(slug, s.bundles[slug])])
  {
    hide Translated, Slugs;
    assert [slug][1..] == [] && [id][1..] == [];
  }
}
