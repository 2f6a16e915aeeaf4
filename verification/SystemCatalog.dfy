/**
 seed_system_catalog of backend/catalog_seeder.py: an upsert of the listed templates by slug,
 driven by the file's version, committed once.

 Slugs are unique over the whole table (backend/catalog_models.py), global and private rows
 together, so the table is a map by slug; the recipes of a template are kept beside it by
 level.  The rows already there are looked up once, before the loop, and only among global
 rows.

 The session does not flush by itself (backend/database.py).  What an update writes stays in the
 session until the next insert flushes it or the run commits; only the delete of the old recipes
 is sent at once.
 */
module SystemCatalog {
  import opened Options

  /** What a file says about one maturity level. */
  datatype Guide = Guide(title: string, estimatedTime: Option<string>, frequency: Option<string>, steps: string)

  datatype Level = L1 | L2 | L3 | L4

  const LEVELS := {L1, L2, L3, L4}

  /** A validated listing has a recipe for every level. */
  datatype Guides = Guides(l1: Guide, l2: Guide, l3: Guide, l4: Guide) {
    function At(level: Level): Guide {
      match level
      case L1 => l1
      case L2 => l2
      case L3 => l3
      case L4 => l4
    }
  }

  datatype Recipe = Recipe(guide: Guide, version: string)

  datatype Fields = Fields(
    name: string, vendor: string, systemType: string, category: Option<string>, description: Option<string>,
    website: Option<string>, aliases: string, logoHint: Option<string>)

  datatype Template = Template(
    id: nat, org: Option<nat>, version: string, fields: Fields, isFallback: bool, recipes: map<Level, Recipe>)

  /** Encodable: its texts can be written as UTF-8 without a NUL, and its lists as JSONB. */
  datatype Entry = Entry(
    slug: string, version: string, fields: Fields, isFallback: bool, guides: Guides, encodable: bool)

  type Table = map<string, Template>

  /** The loop's state: the session's view of the table, the next id, what is not flushed yet, the counters. */
  datatype State = State(
    table: Table, nextId: nat, pending: seq<Entry>, inserted: nat, updated: nat, skipped: nat)

  // ---------------------------------------------------------------------------
  // The columns
  // ---------------------------------------------------------------------------

  predicate Within(text: Option<string>, limit: nat) {
    text.Some? ==> |text.value| <= limit
  }

  predicate FieldsFit(f: Fields) {
    && |f.name| <= 255 && |f.vendor| <= 255 && |f.systemType| <= 50
    && Within(f.category, 100) && Within(f.website, 500) && Within(f.logoHint, 50)
  }

  predicate GuideFits(g: Guide) {
    |g.title| <= 500 && Within(g.estimatedTime, 100) && Within(g.frequency, 100)
  }

  /** The template row of an entry can be stored. */
  predicate RowFits(e: Entry) {
    e.encodable && |e.slug| <= 100 && |e.version| <= 20 && FieldsFit(e.fields)
  }

  /** So can its recipe rows. */
  predicate Fits(e: Entry) {
    RowFits(e) && GuideFits(e.guides.l1) && GuideFits(e.guides.l2) && GuideFits(e.guides.l3) && GuideFits(e.guides.l4)
  }

  /**
   What is not flushed yet can be: every entry fits its columns, and no template has the recipes of
   two entries waiting, which would share a level.
   */
  predicate Flushes(pending: seq<Entry>) {
    && (forall e :: e in pending ==> Fits(e))
    && DistinctSlugs(pending)
  }

  predicate DistinctSlugs(entries: seq<Entry>) {
    forall i, j :: 0 <= i < j < |entries| ==> entries[i].slug != entries[j].slug
  }

  // ---------------------------------------------------------------------------
  // The loop
  // ---------------------------------------------------------------------------

  function RecipesOf(e: Entry): map<Level, Recipe> {
    map level | level in LEVELS :: Recipe(e.guides.At(level), e.version)
  }

  /** The template the file describes, under a given id. */
  function FromFile(e: Entry, id: nat): Template {
    Template(id, None, e.version, e.fields, e.isFallback, RecipesOf(e))
  }

  predicate IsGlobal(table: Table, slug: string) {
    slug in table && table[slug].org.None?
  }

  /** The rows found before the loop, by slug. */
  function GlobalIds(table: Table): (ids: map<string, nat>)
    ensures forall slug :: slug in ids <==> IsGlobal(table, slug)
  {
    map slug | slug in table && table[slug].org.None? :: table[slug].id
  }

  /** One turn of the loop; None is a database error at the flush that precedes an insert's recipes. */
  function Turn(start: Table, s: State, e: Entry): Option<State>
    requires IsGlobal(start, e.slug) ==> e.slug in s.table
  {
    if IsGlobal(start, e.slug) then
      var row := s.table[e.slug];
      if row.version == e.version then Some(s.(skipped := s.skipped + 1))
      else
        Some(s.(
          table := s.table[e.slug := FromFile(e, row.id).(org := row.org)],
          pending := s.pending + [e], updated := s.updated + 1))
    else if !Flushes(s.pending) || e.slug in s.table || !RowFits(e) then None
    else
      Some(s.(
        table := s.table[e.slug := FromFile(e, s.nextId)], nextId := s.nextId + 1,
        pending := [e], inserted := s.inserted + 1))
  }

  /** The whole loop over a list of entries. */
  function Loop(start: Table, nextId: nat, entries: seq<Entry>): (result: Option<State>)
    ensures result.Some? ==> start.Keys <= result.value.table.Keys
  {
    if entries == [] then Some(State(start, nextId, [], 0, 0, 0))
    else
      match Loop(start, nextId, entries[..|entries| - 1])
      case None => None
      case Some(s) => Turn(start, s, entries[|entries| - 1])
  }

  /** The loop and the commit, which flushes what is left. */
  function Upsert(start: Table, nextId: nat, entries: seq<Entry>): Option<State> {
    match Loop(start, nextId, entries)
    case None => None
    case Some(s) => if Flushes(s.pending) then Some(s.(pending := [])) else None
  }

  // ---------------------------------------------------------------------------
  // When a run raises
  // ---------------------------------------------------------------------------

  /** The version under a slug once these entries have had their turns: that of the last one for it. */
  function VersionAfter(start: Table, entries: seq<Entry>, slug: string): string
    requires slug in start
  {
    if entries == [] then start[slug].version
    else if entries[|entries| - 1].slug == slug then entries[|entries| - 1].version
    else VersionAfter(start, entries[..|entries| - 1], slug)
  }

  /** Entry k is written: no global row has its slug, or that row is at another version by then. */
  predicate Written(start: Table, entries: seq<Entry>, k: nat)
    requires k < |entries|
  {
    var e := entries[k];
    IsGlobal(start, e.slug) ==> VersionAfter(start, entries[..k], e.slug) != e.version
  }

  /** Entry k would be inserted under a slug that a private row or an earlier entry already holds. */
  ghost predicate Blocked(start: Table, entries: seq<Entry>, k: nat)
    requires k < |entries|
  {
    var slug := entries[k].slug;
    !IsGlobal(start, slug) && (slug in start || exists j :: 0 <= j < k && entries[j].slug == slug)
  }

  /** Entries j and k both update one template, and no insert between them flushes the first one's recipes. */
  ghost predicate Rewrites(start: Table, entries: seq<Entry>, j: nat, k: nat)
    requires j < k < |entries|
  {
    && entries[j].slug == entries[k].slug && Written(start, entries, j) && Written(start, entries, k)
    && forall i :: j <= i <= k ==> IsGlobal(start, entries[i].slug)
  }

  /** Entry k is why a run raises. */
  ghost predicate Offends(start: Table, entries: seq<Entry>, k: nat)
    requires k < |entries|
  {
    || Blocked(start, entries, k)
    || (Written(start, entries, k) && !Fits(entries[k]))
    || exists j :: 0 <= j < k && Rewrites(start, entries, j, k)
  }

  ghost predicate SomeOffends(start: Table, entries: seq<Entry>) {
    exists k :: 0 <= k < |entries| && Offends(start, entries, k)
  }

  lemma {:induction false} SlugsAfter(start: Table, nextId: nat, entries: seq<Entry>, slug: string)
    requires Loop(start, nextId, entries).Some?
    ensures slug in Loop(start, nextId, entries).value.table <==>
            slug in start || exists j :: 0 <= j < |entries| && entries[j].slug == slug
  {
    if entries != [] {
      SlugsAfter(start, nextId, entries[..|entries| - 1], slug);
    }
  }

  lemma {:induction false} VersionsAfter(start: Table, nextId: nat, entries: seq<Entry>, slug: string)
    requires Loop(start, nextId, entries).Some? && IsGlobal(start, slug)
    ensures Loop(start, nextId, entries).value.table[slug].version == VersionAfter(start, entries, slug)
  {
    if entries != [] {
      VersionsAfter(start, nextId, entries[..|entries| - 1], slug);
    }
  }

  /** What an entry is does not depend on the entries after it. */
  lemma OffendsLocally(start: Table, entries: seq<Entry>, n: nat, k: nat)
    requires k < n <= |entries|
    ensures Written(start, entries, k) <==> Written(start, entries[..n], k)
    ensures Offends(start, entries, k) <==> Offends(start, entries[..n], k)
  {
    var before := entries[..n];
    assert forall i :: 0 <= i <= n ==> before[..i] == entries[..i];
    assert Blocked(start, entries, k) <==> Blocked(start, before, k);
    assert forall j :: 0 <= j < k ==> (Rewrites(start, entries, j, k) <==> Rewrites(start, before, j, k));
  }

  lemma SomeOffendsStep(start: Table, entries: seq<Entry>)
    requires entries != []
    ensures var n := |entries| - 1;
            SomeOffends(start, entries) <==> SomeOffends(start, entries[..n]) || Offends(start, entries, n)
  {
    var n := |entries| - 1;
    forall k: nat | k < n
      ensures Offends(start, entries, k) <==> Offends(start, entries[..n], k)
    {
      OffendsLocally(start, entries, n, k);
    }
  }

  /** The written entries that nothing has flushed yet: an insert flushes what came before it. */
  function Waiting(start: Table, entries: seq<Entry>): seq<Entry> {
    if entries == [] then []
    else
      var n := |entries| - 1;
      if !IsGlobal(start, entries[n].slug) then [entries[n]]
      else if Written(start, entries, n) then Waiting(start, entries[..n]) + [entries[n]]
      else Waiting(start, entries[..n])
  }

  lemma {:induction false} PendingIsWaiting(start: Table, nextId: nat, entries: seq<Entry>)
    requires Loop(start, nextId, entries).Some?
    ensures Loop(start, nextId, entries).value.pending == Waiting(start, entries)
  {
    if entries != [] {
      var n := |entries| - 1;
      PendingIsWaiting(start, nextId, entries[..n]);
      if IsGlobal(start, entries[n].slug) {
        VersionsAfter(start, nextId, entries[..n], entries[n].slug);
      }
    }
  }

  /** Entry j has updated its template, and no insert has come since. */
  ghost predicate Waits(start: Table, entries: seq<Entry>, j: nat)
    requires j < |entries|
  {
    Written(start, entries, j) && forall i :: j <= i < |entries| ==> IsGlobal(start, entries[i].slug)
  }

  ghost predicate SomeWaits(start: Table, entries: seq<Entry>, slug: string) {
    exists j :: 0 <= j < |entries| && entries[j].slug == slug && Waits(start, entries, j)
  }

  lemma SomeWaitsStep(start: Table, entries: seq<Entry>, slug: string)
    requires entries != []
    ensures var n := |entries| - 1;
            SomeWaits(start, entries, slug) <==>
            && IsGlobal(start, entries[n].slug)
            && (SomeWaits(start, entries[..n], slug) || (entries[n].slug == slug && Written(start, entries, n)))
  {
    var n := |entries| - 1;
    forall j: nat | j < n
      ensures Waits(start, entries, j) <==> Waits(start, entries[..n], j) && IsGlobal(start, entries[n].slug)
    {
      OffendsLocally(start, entries, n, j);
    }
    assert Waits(start, entries, n) <==> Written(start, entries, n) && IsGlobal(start, entries[n].slug);
  }

  lemma {:induction false} WaitingEntries(start: Table, entries: seq<Entry>, slug: string)
    requires IsGlobal(start, slug)
    ensures (exists e :: e in Waiting(start, entries) && e.slug == slug) <==> SomeWaits(start, entries, slug)
  {
    if entries != [] {
      var n := |entries| - 1;
      WaitingEntries(start, entries[..n], slug);
      SomeWaitsStep(start, entries, slug);
      var before := Waiting(start, entries[..n]);
      assert forall e :: e in before + [entries[n]] <==> e in before || e == entries[n];
    }
  }

  lemma OneMoreWaits(pending: seq<Entry>, e: Entry)
    ensures Flushes(pending + [e]) <==>
            Flushes(pending) && Fits(e) && forall p :: p in pending ==> p.slug != e.slug
  {
    var all := pending + [e];
    assert forall p :: p in all <==> p in pending || p == e;
    assert forall i :: 0 <= i < |pending| ==> all[i] == pending[i] && pending[i] in pending;
    assert all[|pending|] == e;
    if DistinctSlugs(all) {
      assert DistinctSlugs(pending);
      forall p | p in pending
        ensures p.slug != e.slug
      {
        var i :| 0 <= i < |pending| && pending[i] == p;
        assert all[i].slug != all[|pending|].slug;
      }
    }
  }

  /** A loop that raised met an offender; one that did not can be committed unless it did. */
  lemma {:induction false} LoopMeetsOffenders(start: Table, nextId: nat, entries: seq<Entry>)
    ensures var s := Loop(start, nextId, entries);
            SomeOffends(start, entries) <==> s.None? || !Flushes(s.value.pending)
  {
    if entries != [] {
      var n := |entries| - 1;
      LoopMeetsOffenders(start, nextId, entries[..n]);
      SomeOffendsStep(start, entries);
      if Loop(start, nextId, entries[..n]).Some? {
        if IsGlobal(start, entries[n].slug) {
          UpdateOffendsExactlyWhen(start, nextId, entries);
        } else {
          InsertOffendsExactlyWhen(start, nextId, entries);
        }
      }
    }
  }

  lemma RewritesAreWaiting(start: Table, entries: seq<Entry>)
    requires entries != [] && IsGlobal(start, entries[|entries| - 1].slug) && Written(start, entries, |entries| - 1)
    ensures var n := |entries| - 1;
            (exists j :: 0 <= j < n && Rewrites(start, entries, j, n)) <==>
            SomeWaits(start, entries[..n], entries[n].slug)
  {
    var n := |entries| - 1;
    forall j: nat | j < n
      ensures Rewrites(start, entries, j, n) <==>
              entries[j].slug == entries[n].slug && Waits(start, entries[..n], j)
    {
      OffendsLocally(start, entries, n, j);
    }
  }

  lemma UpdateOffendsExactlyWhen(start: Table, nextId: nat, entries: seq<Entry>)
    requires entries != [] && IsGlobal(start, entries[|entries| - 1].slug)
    requires Loop(start, nextId, entries[..|entries| - 1]).Some?
    ensures var n := |entries| - 1;
            var before := Loop(start, nextId, entries[..n]).value;
            && Loop(start, nextId, entries).Some?
            && (Flushes(Loop(start, nextId, entries).value.pending) <==>
                Flushes(before.pending) && !Offends(start, entries, n))
  {
    var n := |entries| - 1;
    var e := entries[n];
    var before := Loop(start, nextId, entries[..n]).value;
    VersionsAfter(start, nextId, entries[..n], e.slug);
    if Written(start, entries, n) {
      PendingIsWaiting(start, nextId, entries[..n]);
      WaitingEntries(start, entries[..n], e.slug);
      RewritesAreWaiting(start, entries);
      OneMoreWaits(before.pending, e);
    }
  }

  lemma InsertOffendsExactlyWhen(start: Table, nextId: nat, entries: seq<Entry>)
    requires entries != [] && !IsGlobal(start, entries[|entries| - 1].slug)
    requires Loop(start, nextId, entries[..|entries| - 1]).Some?
    ensures var n := |entries| - 1;
            var before := Loop(start, nextId, entries[..n]).value;
            var s := Loop(start, nextId, entries);
            s.Some? && Flushes(s.value.pending) <==> Flushes(before.pending) && !Offends(start, entries, n)
  {
    var n := |entries| - 1;
    BlockedExactlyWhenTaken(start, nextId, entries);
    assert Offends(start, entries, n) <==> Blocked(start, entries, n) || !Fits(entries[n]);
    assert Flushes([entries[n]]) <==> Fits(entries[n]);
  }

  lemma BlockedExactlyWhenTaken(start: Table, nextId: nat, entries: seq<Entry>)
    requires entries != [] && !IsGlobal(start, entries[|entries| - 1].slug)
    requires Loop(start, nextId, entries[..|entries| - 1]).Some?
    ensures var n := |entries| - 1;
            Blocked(start, entries, n) <==> entries[n].slug in Loop(start, nextId, entries[..n]).value.table
  {
    var n := |entries| - 1;
    SlugsAfter(start, nextId, entries[..n], entries[n].slug);
    assert forall j :: 0 <= j < n ==> entries[..n][j] == entries[j];
  }

  /**
   The run raises, and therefore changes nothing, exactly when some listed entry is blocked, or
   would be written and does not fit its columns, or rewrites a template whose new recipes are
   still waiting in the session.
   */
  lemma RaisesExactlyWhen(start: Table, nextId: nat, entries: seq<Entry>)
    ensures Upsert(start, nextId, entries).None? <==> SomeOffends(start, entries)
  {
    LoopMeetsOffenders(start, nextId, entries);
  }

  /** A listed slug that a private template holds blocks the whole run. */
  lemma PrivateSlugBlocks(start: Table, nextId: nat, e: Entry)
    requires e.slug in start && start[e.slug].org.Some?
    ensures Upsert(start, nextId, [e]).None?
  {
    assert Offends(start, [e], 0);
    RaisesExactlyWhen(start, nextId, [e]);
  }

  /** A new template, or a new version of one, with a value its column cannot hold makes the run raise. */
  lemma OversizedEntryRaises(start: Table, nextId: nat, e: Entry)
    requires !Fits(e) && (IsGlobal(start, e.slug) ==> start[e.slug].version != e.version)
    ensures Upsert(start, nextId, [e]).None?
  {
    assert [e][..0] == [];
    assert Offends(start, [e], 0);
    RaisesExactlyWhen(start, nextId, [e]);
  }

  predicate GuideIsShort(g: Guide) {
    && |g.title| <= 500
    && (g.estimatedTime.Some? ==> |g.estimatedTime.value| <= 100)
    && (g.frequency.Some? ==> |g.frequency.value| <= 100)
  }

  /** A template for a free slug is taken in exactly when every text of it is as short as its column. */
  lemma NewTemplateIsTakenExactlyWhen(start: Table, nextId: nat, e: Entry)
    requires e.slug !in start
    ensures Upsert(start, nextId, [e]).Some? <==>
            && e.encodable && |e.slug| <= 100 && |e.version| <= 20
            && |e.fields.name| <= 255 && |e.fields.vendor| <= 255 && |e.fields.systemType| <= 50
            && (e.fields.category.Some? ==> |e.fields.category.value| <= 100)
            && (e.fields.website.Some? ==> |e.fields.website.value| <= 500)
            && (e.fields.logoHint.Some? ==> |e.fields.logoHint.value| <= 50)
            && GuideIsShort(e.guides.l1) && GuideIsShort(e.guides.l2)
            && GuideIsShort(e.guides.l3) && GuideIsShort(e.guides.l4)
    ensures Upsert(start, nextId, [e]).Some? ==>
              var s := Upsert(start, nextId, [e]).value;
              s.inserted == 1 && s.updated == 0 && s.skipped == 0 && s.table.Keys == start.Keys + {e.slug}
  {
    assert [e][..0] == [];
    assert Loop(start, nextId, [e]) == Turn(start, State(start, nextId, [], 0, 0, 0), e);
    assert Flushes([e]) <==> Fits(e) by {
      OneMoreWaits([], e);
      assert [] + [e] == [e];
    }
  }

  /** A template that stands at another version is updated in place, and one at the same version is skipped. */
  lemma StoredTemplateIsUpdatedOrSkipped(start: Table, nextId: nat, e: Entry)
    requires IsGlobal(start, e.slug) && Fits(e)
    ensures Upsert(start, nextId, [e])
         == if start[e.slug].version == e.version then Some(State(start, nextId, [], 0, 0, 1))
            else Some(State(start[e.slug := FromFile(e, start[e.slug].id)], nextId, [], 0, 1, 0))
  {
    assert [e][..0] == [];
    assert Loop(start, nextId, [e]) == Turn(start, State(start, nextId, [], 0, 0, 0), e);
    OneMoreWaits([], e);
    assert [] + [e] == [e];
  }

  // ---------------------------------------------------------------------------
  // What a completed run does
  // ---------------------------------------------------------------------------

  /** What a completed run did with one listed entry. */
  ghost predicate Refreshed(start: Table, table: Table, e: Entry) {
    && e.slug in table
    && if e.slug in start && start[e.slug].version == e.version then table[e.slug] == start[e.slug]
       else table[e.slug] == FromFile(e, table[e.slug].id) && (e.slug in start ==> table[e.slug].id == start[e.slug].id)
  }

  predicate Listed(entries: seq<Entry>, slug: string) {
    exists k :: 0 <= k < |entries| && entries[k].slug == slug
  }

  lemma {:induction false} LoopKeepsOthers(start: Table, nextId: nat, entries: seq<Entry>, slug: string)
    requires Loop(start, nextId, entries).Some?
    requires slug in start && (!IsGlobal(start, slug) || !Listed(entries, slug))
    ensures Loop(start, nextId, entries).value.table[slug] == start[slug]
  {
    if entries != [] {
      var n := |entries| - 1;
      assert Listed(entries[..n], slug) ==> Listed(entries, slug);
      LoopKeepsOthers(start, nextId, entries[..n], slug);
      assert entries[n].slug == slug ==> Listed(entries, slug);
    }
  }

  /** A completed run touches no private and no unlisted template. */
  lemma OthersStay(start: Table, nextId: nat, entries: seq<Entry>, slug: string)
    requires Upsert(start, nextId, entries).Some?
    requires slug in start && (!IsGlobal(start, slug) || !Listed(entries, slug))
    ensures Upsert(start, nextId, entries).value.table[slug] == start[slug]
  {
    LoopKeepsOthers(start, nextId, entries, slug);
  }

  lemma {:induction false} LoopRefreshes(start: Table, nextId: nat, entries: seq<Entry>, k: nat)
    requires DistinctSlugs(entries) && Loop(start, nextId, entries).Some? && k < |entries|
    ensures Refreshed(start, Loop(start, nextId, entries).value.table, entries[k])
  {
    var n := |entries| - 1;
    if k < n {
      LoopRefreshes(start, nextId, entries[..n], k);
      assert entries[n].slug != entries[k].slug;
    } else if entries[n].slug in start {
      assert !Listed(entries[..n], entries[n].slug);
      LoopKeepsOthers(start, nextId, entries[..n], entries[n].slug);
    }
  }

  /**
   With distinct slugs, a completed run makes every listed template and its recipes equal to
   the file when it was absent or at another version, and leaves it alone when it was at the
   same version.
   */
  lemma UpsertIsExact(start: Table, nextId: nat, entries: seq<Entry>, k: nat)
    requires DistinctSlugs(entries) && Upsert(start, nextId, entries).Some? && k < |entries|
    ensures Refreshed(start, Upsert(start, nextId, entries).value.table, entries[k])
  {
    LoopRefreshes(start, nextId, entries, k);
  }

  /** What the file says, column by column and level by level, is what a refreshed template holds. */
  lemma RefreshedReadsLikeTheFile(start: Table, nextId: nat, entries: seq<Entry>, k: nat)
    requires DistinctSlugs(entries) && Upsert(start, nextId, entries).Some? && k < |entries|
    requires entries[k].slug !in start || start[entries[k].slug].version != entries[k].version
    ensures entries[k].slug in Upsert(start, nextId, entries).value.table
    ensures var e, row := entries[k], Upsert(start, nextId, entries).value.table[entries[k].slug];
            && row.org.None? && row.version == e.version && row.fields == e.fields && row.isFallback == e.isFallback
            && row.recipes == map[L1 := Recipe(e.guides.l1, e.version), L2 := Recipe(e.guides.l2, e.version),
                                  L3 := Recipe(e.guides.l3, e.version), L4 := Recipe(e.guides.l4, e.version)]
  {
    UpsertIsExact(start, nextId, entries, k);
    RecipesAreTheGuides(entries[k]);
  }

  lemma RecipesAreTheGuides(e: Entry)
    ensures RecipesOf(e)
         == map[L1 := Recipe(e.guides.l1, e.version), L2 := Recipe(e.guides.l2, e.version),
                L3 := Recipe(e.guides.l3, e.version), L4 := Recipe(e.guides.l4, e.version)]
  {
    var guides := map[L1 := Recipe(e.guides.l1, e.version), L2 := Recipe(e.guides.l2, e.version),
                      L3 := Recipe(e.guides.l3, e.version), L4 := Recipe(e.guides.l4, e.version)];
    forall level: Level
      ensures level in RecipesOf(e) && level in guides && RecipesOf(e)[level] == guides[level]
    {
      match level { case L1 => case L2 => case L3 => case L4 => }
    }
  }

  function SkippedEntries(start: Table, entries: seq<Entry>): set<nat> {
    set k: nat | k < |entries| && !Written(start, entries, k)
  }

  lemma CountOneMore(start: Table, entries: seq<Entry>)
    requires entries != []
    ensures var n := |entries| - 1;
            |SkippedEntries(start, entries)|
              == |SkippedEntries(start, entries[..n])| + if Written(start, entries, n) then 0 else 1
  {
    var n := |entries| - 1;
    var earlier := SkippedEntries(start, entries[..n]);
    forall k: nat | k < n
      ensures Written(start, entries, k) <==> Written(start, entries[..n], k)
    {
      OffendsLocally(start, entries, n, k);
    }
    assert SkippedEntries(start, entries) == if Written(start, entries, n) then earlier else earlier + {n};
  }

  lemma {:induction false} LoopCounts(start: Table, nextId: nat, entries: seq<Entry>)
    requires Loop(start, nextId, entries).Some?
    ensures var s := Loop(start, nextId, entries).value;
            && s.inserted + s.updated + s.skipped == |entries|
            && s.skipped == |SkippedEntries(start, entries)|
            && s.nextId == nextId + s.inserted
  {
    if entries != [] {
      var n := |entries| - 1;
      LoopCounts(start, nextId, entries[..n]);
      if IsGlobal(start, entries[n].slug) {
        VersionsAfter(start, nextId, entries[..n], entries[n].slug);
      }
      CountOneMore(start, entries);
    } else {
      assert SkippedEntries(start, entries) == {};
    }
  }

  /** The counters account for every entry: those up to date by their turn are skipped, and nothing else is. */
  lemma CountersAddUp(start: Table, nextId: nat, entries: seq<Entry>)
    requires Upsert(start, nextId, entries).Some?
    ensures var s := Upsert(start, nextId, entries).value;
            && s.inserted + s.updated + s.skipped == |entries|
            && s.skipped == |SkippedEntries(start, entries)|
            && s.nextId == nextId + s.inserted
  {
    LoopCounts(start, nextId, entries);
  }

  // ---------------------------------------------------------------------------
  // The next run over the same files
  // ---------------------------------------------------------------------------

  /** No slug is listed with two versions. */
  predicate OneVersionEach(entries: seq<Entry>) {
    forall i, j :: 0 <= i < j < |entries| && entries[i].slug == entries[j].slug ==>
      entries[i].version == entries[j].version
  }

  predicate UpToDate(table: Table, e: Entry) {
    IsGlobal(table, e.slug) && table[e.slug].version == e.version
  }

  lemma {:induction false} UpToDateEntriesAreSkipped(start: Table, nextId: nat, entries: seq<Entry>)
    requires forall k :: 0 <= k < |entries| ==> UpToDate(start, entries[k])
    ensures Loop(start, nextId, entries) == Some(State(start, nextId, [], 0, 0, |entries|))
  {
    if entries != [] {
      UpToDateEntriesAreSkipped(start, nextId, entries[..|entries| - 1]);
    }
  }

  /** After the loop a listed slug is global and at the version of its last entry. */
  lemma {:induction false} ListedBecomesGlobal(start: Table, nextId: nat, entries: seq<Entry>, k: nat)
    requires Loop(start, nextId, entries).Some? && k < |entries|
    requires forall j :: k < j < |entries| ==> entries[j].slug != entries[k].slug
    ensures UpToDate(Loop(start, nextId, entries).value.table, entries[k])
  {
    var n := |entries| - 1;
    if k < n {
      ListedBecomesGlobal(start, nextId, entries[..n], k);
    } else if IsGlobal(start, entries[n].slug) {
      GlobalStays(start, nextId, entries, entries[n].slug);
      VersionsAfter(start, nextId, entries, entries[n].slug);
    }
  }

  lemma {:induction false} GlobalStays(start: Table, nextId: nat, entries: seq<Entry>, slug: string)
    requires Loop(start, nextId, entries).Some? && IsGlobal(start, slug)
    ensures IsGlobal(Loop(start, nextId, entries).value.table, slug)
  {
    if entries != [] {
      GlobalStays(start, nextId, entries[..|entries| - 1], slug);
    }
  }

  /** The last entry for a slug that is listed. */
  lemma {:induction false} LastListing(entries: seq<Entry>, k: nat) returns (last: nat)
    requires k < |entries|
    ensures k <= last < |entries| && entries[last].slug == entries[k].slug
    ensures forall j :: last < j < |entries| ==> entries[j].slug != entries[k].slug
    decreases |entries| - k
  {
    if later: nat :| k < later < |entries| && entries[later].slug == entries[k].slug {
      last := LastListing(entries, later);
    } else {
      last := k;
    }
  }

  /** Two neighbouring entries for one slug with different versions, of which the second is then written. */
  lemma {:induction false} NeighboursDiffer(entries: seq<Entry>, i: nat, j: nat) returns (a: nat, b: nat)
    requires i < j < |entries| && entries[i].slug == entries[j].slug && entries[i].version != entries[j].version
    ensures i <= a < b <= j && entries[a].slug == entries[b].slug == entries[i].slug
    ensures entries[a].version != entries[b].version
    ensures forall m :: a < m < b ==> entries[m].slug != entries[i].slug
    decreases j - i
  {
    if m: nat :| i < m < j && entries[m].slug == entries[i].slug {
      if entries[m].version != entries[i].version {
        a, b := NeighboursDiffer(entries, i, m);
      } else {
        a, b := NeighboursDiffer(entries, m, j);
      }
    } else {
      a, b := i, j;
    }
  }

  lemma {:induction false} VersionAfterListing(start: Table, entries: seq<Entry>, a: nat)
    requires a < |entries| && entries[a].slug in start
    requires forall m :: a < m < |entries| ==> entries[m].slug != entries[a].slug
    ensures VersionAfter(start, entries, entries[a].slug) == entries[a].version
  {
    if a < |entries| - 1 {
      VersionAfterListing(start, entries[..|entries| - 1], a);
    }
  }

  lemma {:induction false} VersionAfterOthers(start: Table, entries: seq<Entry>, slug: string)
    requires slug in start && forall k :: 0 <= k < |entries| ==> entries[k].slug != slug
    ensures VersionAfter(start, entries, slug) == start[slug].version
  {
    if entries != [] {
      VersionAfterOthers(start, entries[..|entries| - 1], slug);
    }
  }

  lemma {:induction false} FirstListing(entries: seq<Entry>, k: nat) returns (first: nat)
    requires k < |entries|
    ensures first <= k && entries[first].slug == entries[k].slug
    ensures forall j :: 0 <= j < first ==> entries[j].slug != entries[k].slug
  {
    if earlier: nat :| earlier < k && entries[earlier].slug == entries[k].slug {
      first := FirstListing(entries, earlier);
    } else {
      first := k;
    }
  }

  /** Of two listings with different versions, some one after the first is written. */
  lemma ChangeIsWritten(table: Table, entries: seq<Entry>, i: nat, j: nat) returns (b: nat)
    requires i < j < |entries| && entries[i].slug == entries[j].slug && entries[i].version != entries[j].version
    requires IsGlobal(table, entries[i].slug)
    ensures i < b <= j && entries[b].slug == entries[i].slug && Written(table, entries, b)
  {
    var a;
    a, b := NeighboursDiffer(entries, i, j);
    VersionAfterListing(table, entries[..b], a);
  }

  /** Over global rows that stand at their last listing, two versions of a slug mean two updates of it. */
  lemma TwoVersionsAreTwoUpdates(table: Table, entries: seq<Entry>, i: nat, j: nat, last: nat) returns (a: nat, b: nat)
    requires i < j <= last < |entries| && entries[i].slug == entries[j].slug == entries[last].slug
    requires entries[i].version != entries[j].version
    requires IsGlobal(table, entries[i].slug) && UpToDate(table, entries[last])
    ensures a < b < |entries| && entries[a].slug == entries[b].slug == entries[i].slug
    ensures Written(table, entries, a) && Written(table, entries, b)
  {
    var first := FirstListing(entries, i);
    if entries[first].version != entries[last].version {
      VersionAfterOthers(table, entries[..first], entries[first].slug);
      a := first;
      b := ChangeIsWritten(table, entries, first, last);
    } else {
      var middle := if entries[i].version != entries[first].version then i else j;
      a := ChangeIsWritten(table, entries, first, middle);
      b := ChangeIsWritten(table, entries, middle, last);
    }
  }

  /**
   After any completed run, a run over the same entries skips every one of them and changes nothing,
   or else it raises, and it raises exactly when some slug is listed with two versions.
   */
  lemma SecondRunRaisesExactlyWhen(start: Table, nextId: nat, entries: seq<Entry>)
    requires Upsert(start, nextId, entries).Some?
    ensures var s := Upsert(start, nextId, entries).value;
            Upsert(s.table, s.nextId, entries)
              == if OneVersionEach(entries) then Some(State(s.table, s.nextId, [], 0, 0, |entries|)) else None
  {
    var s := Upsert(start, nextId, entries).value;
    forall k: nat | k < |entries| && forall m :: k < m < |entries| ==> entries[m].slug != entries[k].slug
      ensures UpToDate(s.table, entries[k])
    {
      ListedBecomesGlobal(start, nextId, entries, k);
    }
    forall k: nat | k < |entries|
      ensures IsGlobal(s.table, entries[k].slug) && (OneVersionEach(entries) ==> UpToDate(s.table, entries[k]))
    {
      var last := LastListing(entries, k);
      assert UpToDate(s.table, entries[last]);
    }
    if OneVersionEach(entries) {
      UpToDateEntriesAreSkipped(s.table, s.nextId, entries);
    } else {
      var i, j :|
        0 <= i < j < |entries| && entries[i].slug == entries[j].slug && entries[i].version != entries[j].version;
      var last := LastListing(entries, j);
      var a, b := TwoVersionsAreTwoUpdates(s.table, entries, i, j, last);
      assert Rewrites(s.table, entries, a, b);
      assert Offends(s.table, entries, b);
      RaisesExactlyWhen(s.table, s.nextId, entries);
    }
  }

  /** It happens: a second file for a slug is taken in once, and from then on every run raises. */
  lemma SecondFileRaisesFromThenOn(start: Table, nextId: nat, a: Entry, b: Entry)
    requires IsGlobal(start, a.slug) && start[a.slug].version == a.version
    requires b.slug == a.slug && b.version != a.version && Fits(b)
    ensures var first := Upsert(start, nextId, [a, b]);
            first.Some? && first.value.updated == 1 && Upsert(first.value.table, first.value.nextId, [a, b]).None?
  {
    var entries := [a, b];
    assert entries[..1] == [a] && [a][..0] == [];
    assert Loop(start, nextId, [a]) == Turn(start, State(start, nextId, [], 0, 0, 0), a);
    assert Loop(start, nextId, entries) == Turn(start, Loop(start, nextId, [a]).value, b);
    OneMoreWaits([], b);
    assert [] + [b] == [b];
    assert entries[0].version != entries[1].version;
    SecondRunRaisesExactlyWhen(start, nextId, entries);
  }

  // ---------------------------------------------------------------------------
  // The code
  // ---------------------------------------------------------------------------

  class CatalogSession {
    var table: Table
    var nextId: nat
    var pending: seq<Entry>

    constructor (table: Table, nextId: nat)
      ensures this.table == table && this.nextId == nextId && pending == []
    {
      this.table, this.nextId, pending := table, nextId, [];
    }

    /** The recipes of one template, added level by level. */
    method AddRecipes(e: Entry) returns (recipes: map<Level, Recipe>)
      ensures recipes == RecipesOf(e)
    {
      recipes := map[];
      var levels := LEVELS;
      while levels != {}
        invariant levels <= LEVELS
        invariant recipes == map level | level in LEVELS - levels :: Recipe(e.guides.At(level), e.version)
        decreases levels
      {
        var level :| level in levels;
        recipes := recipes[level := Recipe(e.guides.At(level), e.version)];
        levels := levels - {level};
      }
    }

    /** The stored template with the file's fields and its recipes recreated. */
    method Refresh(e: Entry, row: Template) returns (refreshed: Template)
      ensures refreshed == FromFile(e, row.id).(org := row.org)
    {
      var recipes := AddRecipes(e);
      refreshed := row.(version := e.version, fields := e.fields, isFallback := e.isFallback, recipes := recipes);
    }

    /** Send what is waiting: refused as a whole when a value does not fit or two recipes meet. */
    method Flush() returns (ok: bool)
      modifies this`pending
      ensures ok == Flushes(old(pending))
      ensures pending == if ok then [] else old(pending)
    {
      var k := 0;
      while k < |pending|
        invariant pending == old(pending) && k <= |pending| && Flushes(pending[..k])
      {
        assert pending[..k + 1] == pending[..k] + [pending[k]];
        OneMoreWaits(pending[..k], pending[k]);
        if !Fits(pending[k]) || exists p :: p in pending[..k] && p.slug == pending[k].slug {
          FlushesPrefix(pending, k + 1);
          return false;
        }
        k := k + 1;
      }
      assert pending[..k] == pending;
      pending := [];
      return true;
    }

    /** Add a template and flush, which sends whatever else is waiting too; then add its recipes. */
    method Insert(e: Entry) returns (ok: bool)
      modifies this
      ensures ok == (Flushes(old(pending)) && e.slug !in old(table) && RowFits(e))
      ensures ok ==>
                && table == old(table)[e.slug := FromFile(e, old(nextId))]
                && nextId == old(nextId) + 1 && pending == [e]
    {
      var flushed := Flush();
      if !flushed || e.slug in table || !RowFits(e) { return false; }
      var recipes := AddRecipes(e);
      table := table[e.slug := Template(nextId, None, e.version, e.fields, e.isFallback, recipes)];
      nextId, pending := nextId + 1, [e];
      return true;
    }

    /** Overwrite a template, delete its stored recipes and add the new ones, which wait for the next flush. */
    method Update(e: Entry)
      requires e.slug in table
      modifies this`table, this`pending
      ensures pending == old(pending) + [e]
      ensures var row := old(table)[e.slug]; table == old(table)[e.slug := FromFile(e, row.id).(org := row.org)]
    {
      var refreshed := Refresh(e, table[e.slug]);
      table, pending := table[e.slug := refreshed], pending + [e];
    }

    method Seed(entries: seq<Entry>) returns (inserted: nat, updated: nat, skipped: nat, raised: bool)
      requires pending == []
      modifies this
      ensures match Upsert(old(table), old(nextId), entries)
              case None => raised && table == old(table)
              case Some(s) => !raised && State(table, nextId, pending, inserted, updated, skipped) == s
    {
      inserted, updated, skipped, raised := 0, 0, 0, false;
      var before := table;
      var existing := GlobalIds(table);
      for k := 0 to |entries|
        invariant Loop(before, old(nextId), entries[..k])
               == Some(State(table, nextId, pending, inserted, updated, skipped))
      {
        var entry := entries[k];
        LoopStep(before, old(nextId), entries, k);
        if entry.slug !in existing {
          var ok := Insert(entry);
          if !ok {
            LoopStaysRaised(before, old(nextId), entries, k + 1);
            table := before;
            return 0, 0, 0, true;
          }
          inserted := inserted + 1;
        } else if table[entry.slug].version != entry.version {
          Update(entry);
          updated := updated + 1;
        } else {
          skipped := skipped + 1;
        }
      }
      assert entries[..|entries|] == entries;
      var committed := Flush();
      if !committed {
        table := before;
        return 0, 0, 0, true;
      }
    }
  }

  lemma LoopStep(start: Table, nextId: nat, entries: seq<Entry>, k: nat)
    requires k < |entries| && Loop(start, nextId, entries[..k]).Some?
    ensures Loop(start, nextId, entries[..k + 1]) == Turn(start, Loop(start, nextId, entries[..k]).value, entries[k])
  {
    assert entries[..k + 1][..k] == entries[..k] && entries[..k + 1][k] == entries[k];
  }

  lemma FlushesPrefix(pending: seq<Entry>, k: nat)
    requires k <= |pending|
    ensures Flushes(pending) ==> Flushes(pending[..k])
  {
  }

  lemma {:induction false} LoopStaysRaised(start: Table, nextId: nat, entries: seq<Entry>, k: nat)
    requires k <= |entries| && Loop(start, nextId, entries[..k]).None?
    ensures Loop(start, nextId, entries).None?
    decreases |entries| - k
  {
    if k < |entries| {
      assert entries[..k + 1][..k] == entries[..k];
      LoopStaysRaised(start, nextId, entries, k + 1);
    } else {
      assert entries[..k] == entries;
    }
  }
}
