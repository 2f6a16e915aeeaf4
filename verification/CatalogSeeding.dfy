/**
 Startup seeding and the destructive reseed of the catalogue tables (backend/catalog_seeder.py),
 on a database that only remembers commits.

 A seeder is described by the database states it commits, in order, and by whether it then
 raises.  A process that dies keeps the commits it made, so a run cut short is a prefix of
 those commits.  Rows are stamped with the catalogue version the files carry.  The theme
 mapping rows are represented by the controls they were computed from (see ThemeMapping).
 */
module CatalogSeeding {
  import opened Options
  import SystemCatalog

  datatype TableName = Controls | Domains | Evidence | Objectives | Themes

  datatype Stamped = Stamped(key: string, row: string, version: string)

  /** The catalogue tables, the registry rows by version, and the system templates with their next id. */
  datatype Db = Db(
    tables: map<TableName, seq<Stamped>>, mappedFrom: Option<seq<Item>>, registries: map<string, seq<string>>,
    system: SystemCatalog.Table, nextId: nat)

  /** An entry of an input file, with the unique key it asks for; Bad is one that its seeder or its table refuses. */
  datatype Item = Good(key: string, row: string) | Bad

  /**
   An input file, by what its readers make of it.  The guard reads bytes and takes any Unicode
   encoding and a byte-order mark; the seeders read UTF-8 text, and a file GuardOnly fails them.  A
   file TooDeep is JSON nested deeper than the parser goes, which raises in every reader.
   */
  datatype File = Unparsable | TooDeep | GuardOnly | Misshapen | Parsed(items: seq<Item>)

  /**
   What the seeders read.  The version is absent when reading catalog_meta.json raises; a file that
   is not there is absent from the tables; crossing says whether computing the theme mappings from the
   entries of the controls file gives rows that can be stored; the system templates, which are read from
   elsewhere, are absent when reading one of their files raises, and are otherwise the valid ones.
   */
  datatype Files = Files(
    version: Option<string>, tables: map<TableName, File>, crossing: bool, registry: Option<File>,
    frameworks: Option<File>, systems: Option<seq<SystemCatalog.Entry>>)

  /** What a reseed's delete leaves: the system templates, and nothing of the other tables. */
  function Cleared(db: Db): Db {
    db.(tables := map[], mappedFrom := None, registries := map[])
  }

  const BATCH: nat := 500

  function Rows(db: Db, t: TableName): seq<Stamped> {
    if t in db.tables then db.tables[t] else []
  }

  predicate AllGood(items: seq<Item>) {
    forall i :: i in items ==> i.Good?
  }

  function RowsOf(items: seq<Item>): seq<string>
    requires AllGood(items)
  {
    seq(|items|, k requires 0 <= k < |items| => assert items[k] in items; items[k].row)
  }

  function Stamp(items: seq<Item>, version: string): (rows: seq<Stamped>)
    requires AllGood(items)
    ensures |rows| == |items|
  {
    seq(|items|,
        k requires 0 <= k < |items| => assert items[k] in items; Stamped(items[k].key, items[k].row, version))
  }

  /** Text that can be sent to the database; NUL stands for what cannot, itself and lone surrogates. */
  predicate Sendable(text: string) {
    '\0' !in text
  }

  /** The version column of every catalogue table. */
  predicate Stampable(version: string) {
    |version| <= 20 && Sendable(version)
  }

  /** A table takes these rows: their keys are distinct and their versions fit the column. */
  predicate Storable(rows: seq<Stamped>) {
    && (forall i, j :: 0 <= i < j < |rows| ==> rows[i].key != rows[j].key)
    && (forall r :: r in rows ==> Stampable(r.version))
  }

  /** The entries become rows that their table takes. */
  predicate Seedable(items: seq<Item>, version: string) {
    AllGood(items) && Storable(Stamp(items, version))
  }

  /** A table takes good entries with keys of their own under a version of at most twenty characters. */
  lemma SeedableExactlyWhen(items: seq<Item>, version: string)
    ensures Seedable(items, version) <==>
            && (forall k :: 0 <= k < |items| ==> items[k].Good?)
            && (forall i, j :: 0 <= i < j < |items| && items[i].Good? && items[j].Good? ==>
                  items[i].key != items[j].key)
            && (items != [] ==> |version| <= 20 && '\0' !in version)
  {
    if AllGood(items) && items != [] {
      var rows := Stamp(items, version);
      assert rows[0] in rows && rows[0].version == version;
      assert forall k :: 0 <= k < |items| ==> items[k] in items && rows[k].key == items[k].key;
    } else if forall k :: 0 <= k < |items| ==> items[k].Good? {
      assert forall i :: i in items ==> i.Good?;
    }
  }

  lemma SeedablePrefix(items: seq<Item>, version: string, k: nat)
    requires k <= |items|
    ensures Seedable(items, version) ==> Seedable(items[..k], version)
  {
    if AllGood(items) {
      assert Stamp(items[..k], version) == Stamp(items, version)[..k];
    }
  }

  /** Successive committed states, then a normal end or an exception. */
  datatype Plan = Plan(commits: seq<Db>, raises: bool)

  /** The database after the first k commits of a plan. */
  function After(db: Db, p: Plan, k: nat): Db {
    if k == 0 || p.commits == [] then db
    else if k < |p.commits| then p.commits[k - 1]
    else p.commits[|p.commits| - 1]
  }

  function Last(db: Db, p: Plan): Db {
    After(db, p, |p.commits|)
  }

  /** The tables seeded by one plain commit. */
  type PlainTable = t: TableName | t.Controls? || t.Domains? || t.Evidence? witness Controls

  datatype Step = Plain(t: PlainTable) | ObjectiveStep | ThemeStep | RegistryStep | SystemStep

  const CATALOG_STEPS := [Plain(Controls), Plain(Domains), Plain(Evidence), ObjectiveStep, ThemeStep, RegistryStep]

  const ORDER := CATALOG_STEPS + [SystemStep]

  /** A single-commit table: everything in the file, or nothing. */
  function PlainPlan(db: Db, files: Files, t: TableName): Plan {
    if files.version.None? then Plan([], true)
    else if Rows(db, t) != [] || t !in files.tables then Plan([], false)
    else if GoodTable(files, t) then Plan([db.(tables := db.tables[t := FileRows(files, t)])], false)
    else Plan([], true)
  }

  /** The objectives loop: one commit for every batch of 500. */
  function Batches(db: Db, items: seq<Item>, version: string, from: nat): Plan
    requires from <= |items|
    decreases |items| - from
  {
    if from == |items| then Plan([], false)
    else
      var to := if from + BATCH < |items| then from + BATCH else |items|;
      if !Seedable(items[..to], version) then Plan([], true)
      else
        var rest := Batches(db, items, version, to);
        Plan([db.(tables := db.tables[Objectives := Stamp(items[..to], version)])] + rest.commits, rest.raises)
  }

  function ObjectivesPlan(db: Db, files: Files): Plan {
    if files.version.None? then Plan([], true)
    else if Rows(db, Objectives) != [] || Objectives !in files.tables then Plan([], false)
    else if files.tables[Objectives].Parsed?
    then Batches(db, files.tables[Objectives].items, files.version.value, 0)
    else Plan([], true)
  }

  /** The entries the theme mappings are computed from, if the controls file is there; None when that raises. */
  function ControlsForThemes(files: Files): Option<Option<seq<Item>>> {
    if Controls !in files.tables then Some(None)
    else if files.tables[Controls].Parsed? && files.crossing then Some(Some(files.tables[Controls].items))
    else None
  }

  /** Themes and mappings in one commit; without the controls file the mappings are left out. */
  function ThemesPlan(db: Db, files: Files): Plan {
    if files.version.None? then Plan([], true)
    else if Rows(db, Themes) != [] || Themes !in files.tables then Plan([], false)
    else if !GoodTable(files, Themes) || ControlsForThemes(files).None? then Plan([], true)
    else
      Plan([db.(
        tables := db.tables[Themes := FileRows(files, Themes)],
        mappedFrom := if FileRows(files, Themes) == [] then db.mappedFrom else ControlsForThemes(files).value)], false)
  }

  /** The file the registry seeder reads: the registry if it is there at all, else the list of names. */
  function RegistrySource(files: Files): Option<File> {
    if files.registry.Some? then files.registry else files.frameworks
  }

  function RegistryPlan(db: Db, files: Files): Plan {
    if files.version.None? || !Sendable(files.version.value) then Plan([], true)
    else if !Describes(db, files.version.value) || files.version.value in db.registries then Plan([], false)
    else if RegistrySource(files).None? || RegistrySource(files).value.Misshapen? then Plan([], false)
    else if GoodRegistry(files) then Plan([db.(registries := db.registries + Registered(files))], false)
    else Plan([], true)
  }

  /** Some control row carries this version. */
  predicate Describes(db: Db, version: string) {
    exists r :: r in Rows(db, Controls) && r.version == version
  }

  /** The system templates: an upsert in one commit, or an exception without one. */
  function SystemPlan(db: Db, files: Files): Plan {
    match files.systems
    case None => Plan([], true)
    case Some(entries) =>
      if entries == [] then Plan([], false)
      else
        match SystemCatalog.Upsert(db.system, db.nextId, entries)
        case None => Plan([], true)
        case Some(s) => Plan([db.(system := s.table, nextId := s.nextId)], false)
  }

  predicate GoodTable(files: Files, t: TableName) {
    && files.version.Some? && t in files.tables && files.tables[t].Parsed?
    && Seedable(files.tables[t].items, files.version.value)
  }

  predicate GoodRegistry(files: Files) {
    && files.version.Some? && Stampable(files.version.value)
    && RegistrySource(files).Some? && RegistrySource(files).value.Parsed? && AllGood(RegistrySource(files).value.items)
  }

  function FileRows(files: Files, t: TableName): seq<Stamped>
    requires GoodTable(files, t)
  {
    Stamp(files.tables[t].items, files.version.value)
  }

  /** The registry rows these files give. */
  function Registered(files: Files): map<string, seq<string>>
    requires GoodRegistry(files)
  {
    map[files.version.value := RowsOf(RegistrySource(files).value.items)]
  }

  function StepPlan(db: Db, files: Files, s: Step): Plan {
    match s
    case Plain(t) => PlainPlan(db, files, t)
    case ObjectiveStep => ObjectivesPlan(db, files)
    case ThemeStep => ThemesPlan(db, files)
    case RegistryStep => RegistryPlan(db, files)
    case SystemStep => SystemPlan(db, files)
  }

  /** One plan after another, unless the first raises. */
  function Then(first: Plan, rest: Plan): Plan {
    if first.raises then first else Plan(first.commits + rest.commits, rest.raises)
  }

  /** Seeders run in order; an exception in one keeps the later ones from running. */
  function SeedPlan(db: Db, files: Files, steps: seq<Step>): Plan
    decreases |steps|
  {
    if steps == [] then Plan([], false)
    else
      var first := StepPlan(db, files, steps[0]);
      if first.raises then first
      else
        Then(first, SeedPlan(Last(db, first), files, steps[1..]))
  }

  // ---------------------------------------------------------------------------
  // The guard and the reseed
  // ---------------------------------------------------------------------------

  predicate Readable(file: Option<File>) {
    file.Some? && !file.value.Unparsable? && !file.value.TooDeep?
  }

  function FileOf(files: Files, t: TableName): Option<File> {
    if t in files.tables then Some(files.tables[t]) else None
  }

  /** missing_reseed_inputs raises itself: a file it reads is too deep. */
  predicate GuardRaises(files: Files) {
    || (exists t: TableName :: FileOf(files, t) == Some(TooDeep))
    || files.registry == Some(TooDeep) || (!Readable(files.registry) && files.frameworks == Some(TooDeep))
  }

  /** missing_reseed_inputs returns the empty list. */
  predicate PassesGuard(files: Files) {
    && !GuardRaises(files)
    && (forall t: TableName :: Readable(FileOf(files, t)))
    && (Readable(files.registry) || Readable(files.frameworks))
  }

  /** reseed_catalog(force=True): refuse, or delete and commit, then seed. */
  function ReseedPlan(db: Db, files: Files): Plan {
    if !PassesGuard(files) then Plan([], GuardRaises(files))
    else
      var rest := SeedPlan(Cleared(db), files, ORDER);
      Plan([Cleared(db)] + rest.commits, rest.raises)
  }

  // ---------------------------------------------------------------------------
  // Invariants of a plan: whatever each step keeps, every prefix of the plan keeps
  // ---------------------------------------------------------------------------

  /** A property of the database that a plan never leaves once it is there. */
  ghost predicate Keeps(db: Db, p: Plan, property: Db -> bool) {
    property(db) ==> forall k :: property(After(db, p, k))
  }

  lemma {:induction false} SeedKeeps(db: Db, files: Files, steps: seq<Step>, property: Db -> bool)
    requires forall d, s :: s in steps ==> Keeps(d, StepPlan(d, files, s), property)
    ensures Keeps(db, SeedPlan(db, files, steps), property)
    decreases |steps|
  {
    if steps != [] && property(db) {
      var first := StepPlan(db, files, steps[0]);
      assert Keeps(db, first, property);
      if !first.raises {
        var middle := Last(db, first);
        SeedKeeps(middle, files, steps[1..], property);
        var rest := SeedPlan(middle, files, steps[1..]);
        forall k: nat
          ensures property(After(db, SeedPlan(db, files, steps), k))
        {
          AfterSplits(db, first, rest, k);
        }
      }
    }
  }

  /** A prefix of two plans in a row is a prefix of the first, or the first and a prefix of the second. */
  lemma AfterSplits(db: Db, first: Plan, rest: Plan, k: nat)
    ensures After(db, Plan(first.commits + rest.commits, rest.raises), k)
         == if k <= |first.commits| then After(db, first, k) else After(Last(db, first), rest, k - |first.commits|)
  {
  }

  // ---------------------------------------------------------------------------
  // Runs of startup seeds and reseeds, each possibly cut short
  // ---------------------------------------------------------------------------

  /** A run of the process: which entry point, over which files, and how many commits it lived to make. */
  datatype Event = Seed(files: Files, commits: nat) | Reseed(files: Files, commits: nat)

  function Happen(db: Db, e: Event): Db {
    match e
    case Seed(files, k) => After(db, SeedPlan(db, files, ORDER), k)
    case Reseed(files, k) => After(db, ReseedPlan(db, files), k)
  }

  function HappenAll(db: Db, events: seq<Event>): Db
    decreases |events|
  {
    if events == [] then db else HappenAll(Happen(db, events[0]), events[1..])
  }

  /** Every registry row describes a version that some control row carries. */
  ghost predicate RegistryDescribesControls(db: Db) {
    forall v :: v in db.registries ==> exists r :: r in Rows(db, Controls) && r.version == v
  }

  lemma StepsKeepRegistry(d: Db, files: Files, s: Step)
    ensures Keeps(d, StepPlan(d, files, s), RegistryDescribesControls)
  {
    if RegistryDescribesControls(d) {
      forall k: nat
        ensures RegistryDescribesControls(After(d, StepPlan(d, files, s), k))
      {
        var d' := After(d, StepPlan(d, files, s), k);
        StepStates(d, files, s, k);
        forall v | v in d'.registries
          ensures exists r :: r in Rows(d', Controls) && r.version == v
        {
          if v in d.registries {
            var r :| r in Rows(d, Controls) && r.version == v;
            assert r in Rows(d', Controls);
          }
        }
      }
    }
  }

  /** What a step may have committed after k commits: only its own table, and only if that was empty. */
  ghost predicate StepState(d: Db, files: Files, s: Step, d': Db) {
    d' == d ||
    match s
    case Plain(t) =>
      Rows(d, t) == [] && GoodTable(files, t) && d' == d.(tables := d.tables[t := FileRows(files, t)])
    case ObjectiveStep =>
      && Rows(d, Objectives) == [] && Objectives in files.tables && files.tables[Objectives].Parsed?
      && d' == d.(tables := d.tables[Objectives := Rows(d', Objectives)])
      && files.version.Some?
      && BatchPrefix(files.tables[Objectives].items, files.version.value, Rows(d', Objectives))
    case ThemeStep =>
      && Rows(d, Themes) == [] && GoodTable(files, Themes) && ControlsForThemes(files).Some?
      && d' == d.(tables := d.tables[Themes := FileRows(files, Themes)], mappedFrom := d'.mappedFrom)
      && d'.mappedFrom == (if FileRows(files, Themes) == [] then d.mappedFrom else ControlsForThemes(files).value)
    case SystemStep => d' == d.(system := d'.system, nextId := d'.nextId)
    case RegistryStep =>
      && GoodRegistry(files) && Describes(d, files.version.value) && files.version.value !in d.registries
      && d' == d.(registries := d.registries + Registered(files))
  }

  lemma StepStates(d: Db, files: Files, s: Step, k: nat)
    ensures StepState(d, files, s, After(d, StepPlan(d, files, s), k))
  {
    var p := StepPlan(d, files, s);
    var d' := After(d, p, k);
    assert d' == d || d' in p.commits;
    if s.ObjectiveStep? && files.version.Some? && Objectives in files.tables && files.tables[Objectives].Parsed? {
      BatchesTouchObjectivesOnly(d, files.tables[Objectives].items, files.version.value, 0);
    }
  }

  /** Over every run of seeds, reseeds and crashes, with files changing in between. */
  lemma {:induction false} RegistryAlwaysDescribesControls(db: Db, events: seq<Event>)
    requires RegistryDescribesControls(db)
    ensures RegistryDescribesControls(HappenAll(db, events))
    decreases |events|
  {
    if events != [] {
      var e := events[0];
      forall d, s
        ensures Keeps(d, StepPlan(d, e.files, s), RegistryDescribesControls)
      {
        StepsKeepRegistry(d, e.files, s);
      }
      if e.Seed? {
        SeedKeeps(db, e.files, ORDER, RegistryDescribesControls);
        assert Keeps(db, SeedPlan(db, e.files, ORDER), RegistryDescribesControls);
      } else {
        SeedKeeps(Cleared(db), e.files, ORDER, RegistryDescribesControls);
        assert Keeps(Cleared(db), SeedPlan(Cleared(db), e.files, ORDER), RegistryDescribesControls);
        ReseedSplits(db, e.files, e.commits);
      }
      RegistryAlwaysDescribesControls(Happen(db, e), events[1..]);
    }
  }

  lemma ReseedSplits(db: Db, files: Files, k: nat)
    ensures After(db, ReseedPlan(db, files), k)
         == if !PassesGuard(files) || k == 0 then db
            else After(Cleared(db), SeedPlan(Cleared(db), files, ORDER), k - 1)
  {
    if PassesGuard(files) {
      AfterSplits(db, Plan([Cleared(db)], false), SeedPlan(Cleared(db), files, ORDER), k);
    }
  }

  // ---------------------------------------------------------------------------
  // The batched objectives
  // ---------------------------------------------------------------------------

  /** A committed state of the objectives loop: a prefix of the file cut at a batch boundary, or all of it. */
  ghost predicate BatchPrefix(items: seq<Item>, version: string, rows: seq<Stamped>) {
    exists m: nat :: m <= |items| && Seedable(items[..m], version) && (m % BATCH == 0 || m == |items|)
                     && rows == Stamp(items[..m], version)
  }

  lemma {:induction false} BatchesTouchObjectivesOnly(db: Db, items: seq<Item>, version: string, from: nat)
    requires from <= |items| && from % BATCH == 0
    ensures var p := Batches(db, items, version, from);
            forall d :: d in p.commits ==>
              && d == db.(tables := db.tables[Objectives := Rows(d, Objectives)])
              && BatchPrefix(items, version, Rows(d, Objectives)) && Rows(d, Objectives) != []
    decreases |items| - from
  {
    if from < |items| {
      var to := if from + BATCH < |items| then from + BATCH else |items|;
      if Seedable(items[..to], version) {
        if to < |items| { BatchesTouchObjectivesOnly(db, items, version, to); }
        assert BatchPrefix(items, version, Stamp(items[..to], version));
      }
    }
  }

  /** A loop that does not raise ends with the whole file. */
  lemma {:induction false} BatchesFinish(db: Db, items: seq<Item>, version: string, from: nat)
    requires from < |items| && !Batches(db, items, version, from).raises
    ensures Seedable(items, version)
    ensures Last(db, Batches(db, items, version, from)) == db.(tables := db.tables[Objectives := Stamp(items, version)])
    decreases |items| - from
  {
    var to := if from + BATCH < |items| then from + BATCH else |items|;
    if to < |items| {
      BatchesFinish(db, items, version, to);
    } else {
      assert items[..to] == items;
    }
  }

  /**
   How far the loop is after so many commits: 500 entries for each, and the whole file at the end,
   which the last commit reaches.
   */
  lemma {:induction false} BatchesOf500(db: Db, items: seq<Item>, version: string, from: nat, k: nat)
    requires Seedable(items, version) && from < |items| && k > 0
    ensures After(db, Batches(db, items, version, from), k)
         == db.(tables := db.tables[Objectives :=
                            Stamp(items, version)[..if from + 500 * k < |items| then from + 500 * k else |items|]])
    ensures 500 * (|Batches(db, items, version, from).commits| - 1) < |items| - from
            <= 500 * |Batches(db, items, version, from).commits|
    decreases |items| - from
  {
    var to := if from + BATCH < |items| then from + BATCH else |items|;
    SeedablePrefix(items, version, to);
    assert Stamp(items[..to], version) == Stamp(items, version)[..to];
    if to < |items| {
      BatchesOf500(db, items, version, to, if k > 1 then k - 1 else 1);
      AfterSplits(db, Plan([db.(tables := db.tables[Objectives := Stamp(items[..to], version)])], false),
                  Batches(db, items, version, to), k);
    }
  }

  /** A table with any rows at all is left alone by every later startup seed, complete or not. */
  lemma {:induction false} TablesAreNeverExtended(db: Db, events: seq<Event>, t: TableName)
    requires Rows(db, t) != [] && forall e :: e in events ==> e.Seed?
    ensures Rows(HappenAll(db, events), t) == Rows(db, t)
    decreases |events|
  {
    if events != [] {
      var e := events[0];
      var property := (d: Db) => Rows(d, t) == Rows(db, t);
      forall d, s
        ensures Keeps(d, StepPlan(d, e.files, s), property)
      {
        forall k: nat | property(d)
          ensures property(After(d, StepPlan(d, e.files, s), k))
        {
          StepStates(d, e.files, s, k);
        }
      }
      SeedKeeps(db, e.files, ORDER, property);
      assert property(Happen(db, e));
      TablesAreNeverExtended(Happen(db, e), events[1..], t);
    }
  }

  /** Startup with nothing to read does nothing, and says so without raising. */
  lemma MissingFilesAreSkipped(db: Db, version: string)
    requires Sendable(version)
    ensures SeedPlan(db, Files(Some(version), map[], true, None, None, Some([])), ORDER) == Plan([], false)
  {
    var files := Files(Some(version), map[], true, None, None, Some([]));
    assert forall s :: StepPlan(db, files, s) == Plan([], false);
    NothingPlanned(db, files, ORDER);
  }

  lemma {:induction false} NothingPlanned(db: Db, files: Files, steps: seq<Step>)
    requires forall s :: StepPlan(db, files, s) == Plan([], false)
    ensures SeedPlan(db, files, steps) == Plan([], false)
    decreases |steps|
  {
    if steps != [] {
      assert StepPlan(db, files, steps[0]) == Plan([], false);
      NothingPlanned(db, files, steps[1..]);
    }
  }

  /** A version file that cannot be read stops every seed before its first commit. */
  lemma UnreadableVersionStopsTheSeed(db: Db, files: Files)
    requires files.version.None?
    ensures SeedPlan(db, files, ORDER) == Plan([], true)
  {
    assert ORDER[0] == Plain(Controls);
  }

  // ---------------------------------------------------------------------------
  // Crashes, recovery and completed runs over one set of files
  // ---------------------------------------------------------------------------

  /** Some, all or none of what these files hold: what a seed or reseed from scratch can leave behind. */
  ghost predicate PartOf(d: Db, files: Files) {
    && (forall t :: t != Objectives && Rows(d, t) != [] ==> GoodTable(files, t) && Rows(d, t) == FileRows(files, t))
    && (Rows(d, Objectives) != [] ==>
          && files.version.Some? && Objectives in files.tables && files.tables[Objectives].Parsed?
          && BatchPrefix(files.tables[Objectives].items, files.version.value, Rows(d, Objectives)))
    && (Rows(d, Themes) == [] ==> d.mappedFrom.None?)
    && (Rows(d, Themes) != [] ==> ControlsForThemes(files) == Some(d.mappedFrom))
    && (d.registries == map[] || (GoodRegistry(files) && d.registries == Registered(files)))
    && (d.registries != map[] ==> Rows(d, Controls) != [])
  }

  lemma StepsKeepPartOf(d: Db, files: Files, s: Step)
    ensures Keeps(d, StepPlan(d, files, s), (x: Db) => PartOf(x, files))
  {
    var property := (x: Db) => PartOf(x, files);
    forall k: nat | property(d)
      ensures property(After(d, StepPlan(d, files, s), k))
    {
      StepStates(d, files, s, k);
    }
  }

  /**
   From empty tables, whatever the crash or the exception: every single-commit table holds its
   whole file or nothing, the objectives a batch prefix, the mappings come with the themes.
   */
  lemma SeedsAreAllOrNothing(db: Db, files: Files, k: nat)
    ensures PartOf(After(Cleared(db), SeedPlan(Cleared(db), files, ORDER), k), files)
  {
    SeedKeepsPartOf(Cleared(db), files, ORDER, k);
  }

  /** Nothing left to do for a step: it neither raises nor changes anything. */
  ghost predicate NoOp(d: Db, files: Files, s: Step) {
    !StepPlan(d, files, s).raises && forall d' :: d' in StepPlan(d, files, s).commits ==> d' == d
  }

  lemma StepSettles(d: Db, files: Files, s: Step)
    requires !StepPlan(d, files, s).raises && !s.SystemStep?
    ensures NoOp(Last(d, StepPlan(d, files, s)), files, s)
  {
    var p := StepPlan(d, files, s);
    var d' := Last(d, p);
    if s.ObjectiveStep? && Rows(d, Objectives) == [] && Objectives in files.tables && files.tables[Objectives].Parsed? {
      var items := files.tables[Objectives].items;
      if items != [] { BatchesFinish(d, items, files.version.value, 0); }
    }
    match s {
      case Plain(t) =>
        if d'.tables != d.tables { assert d'.tables[t := Rows(d', t)] == d'.tables; }
      case ThemeStep =>
        if d'.tables != d.tables { assert d'.tables[Themes := Rows(d', Themes)] == d'.tables; }
      case _ =>
    }
  }

  /** Nothing left to do stays so, except that controls loaded later may call for a registry row. */
  lemma NoOpsPersist(d: Db, files: Files, s: Step, other: Step, k: nat)
    requires NoOp(d, files, s) && !s.SystemStep? && (s.RegistryStep? ==> other.SystemStep?)
    ensures NoOp(After(d, StepPlan(d, files, other), k), files, s)
  {
    var d' := After(d, StepPlan(d, files, other), k);
    StepStates(d, files, other, k);
    if s == other {
      var p := StepPlan(d, files, s);
      assert d' == d || d' in p.commits;
    } else if d' != d {
      match s {
        case RegistryStep => RegistryIgnoresSystems(d, files, d'.system, d'.nextId);
        case Plain(t) => TableStepPersists(d, d', files, s, t);
        case ObjectiveStep => TableStepPersists(d, d', files, s, Objectives);
        case ThemeStep => TableStepPersists(d, d', files, s, Themes);
      }
    }
  }

  lemma RegistryIgnoresSystems(d: Db, files: Files, system: SystemCatalog.Table, nextId: nat)
    requires NoOp(d, files, RegistryStep)
    ensures NoOp(d.(system := system, nextId := nextId), files, RegistryStep)
  {
    RegistryCommitsMatter(d, files);
  }

  lemma RegistryCommitsMatter(d: Db, files: Files)
    ensures RegistryPlan(d, files).commits != [] ==> !NoOp(d, files, RegistryStep)
  {
    var p := RegistryPlan(d, files);
    if p.commits != [] {
      assert p.commits[0] in p.commits && files.version.value in p.commits[0].registries;
    }
  }

  lemma TableStepPersists(d: Db, d': Db, files: Files, s: Step, t: TableName)
    requires NoOp(d, files, s) && s == StepOf(t)
    requires Rows(d', t) == Rows(d, t) && (t in d.tables <==> t in d'.tables)
    ensures NoOp(d', files, s)
  {
    if Rows(d, t) == [] && t in files.tables {
      TableNoOp(d, files, s, t);
      TableNoOp(d', files, s, t);
    }
  }

  function StepOf(t: TableName): Step {
    if t == Objectives then ObjectiveStep else if t == Themes then ThemeStep else Plain(t)
  }

  /** With its table empty and its file there, a step has nothing to do exactly when the file holds no rows. */
  lemma TableNoOp(d: Db, files: Files, s: Step, t: TableName)
    requires s == StepOf(t) && Rows(d, t) == [] && t in files.tables
    ensures NoOp(d, files, s) <==>
            && GoodTable(files, t) && files.tables[t].items == []
            && (t == Themes ==> ControlsForThemes(files).Some?) && (t == Objectives || t in d.tables)
  {
    if t == Objectives && files.version.Some? && files.tables[t].Parsed? && !GoodTable(files, t) {
      BadBatchesRaise(d, files.tables[t].items, files.version.value, 0);
    }
    if GoodTable(files, t) {
      var items := files.tables[t].items;
      var p := StepPlan(d, files, s);
      if t == Objectives {
        if items != [] {
          BatchesTouchObjectivesOnly(d, items, files.version.value, 0);
          GoodBatchesDoNotRaise(d, items, files.version.value, 0);
          assert p.commits[0] in p.commits;
        }
      } else if p.commits != [] {
        assert p.commits[0] in p.commits;
        assert Rows(p.commits[0], t) == FileRows(files, t);
        if items == [] && t in d.tables { assert d.tables[t := []] == d.tables; }
      }
    }
  }

  lemma {:induction false} SeedSettles(db: Db, files: Files, steps: seq<Step>)
    requires !SeedPlan(db, files, steps).raises && SystemStep !in steps
    requires RegistryLast(steps)
    ensures forall s :: s in steps ==> NoOp(Last(db, SeedPlan(db, files, steps)), files, s)
    decreases |steps|
  {
    if steps != [] {
      var first := StepPlan(db, files, steps[0]);
      var middle := Last(db, first);
      var rest := SeedPlan(middle, files, steps[1..]);
      SeedSettles(middle, files, steps[1..]);
      AfterSplits(db, first, rest, |first.commits + rest.commits|);
      StepSettles(db, files, steps[0]);
      if |steps| > 1 {
        var property := (x: Db) => NoOp(x, files, steps[0]);
        forall d, s | s in steps[1..]
          ensures Keeps(d, StepPlan(d, files, s), property)
        {
          forall k: nat | property(d)
            ensures property(After(d, StepPlan(d, files, s), k))
          {
            NoOpsPersist(d, files, steps[0], s, k);
          }
        }
        SeedKeeps(middle, files, steps[1..], property);
        assert property(middle) && property(After(middle, rest, |rest.commits|));
      }
      assert forall s :: s in steps ==> s == steps[0] || s in steps[1..];
    }
  }

  lemma {:induction false} NoOpsRun(d: Db, files: Files, steps: seq<Step>, k: nat)
    requires forall s :: s in steps ==> NoOp(d, files, s)
    ensures !SeedPlan(d, files, steps).raises && After(d, SeedPlan(d, files, steps), k) == d
    decreases |steps|
  {
    if steps != [] {
      var first := StepPlan(d, files, steps[0]);
      assert NoOp(d, files, steps[0]);
      assert forall j: nat :: After(d, first, j) == d || After(d, first, j) in first.commits;
      NoOpsRun(d, files, steps[1..], if k <= |first.commits| then 0 else k - |first.commits|);
      AfterSplits(d, first, SeedPlan(d, files, steps[1..]), k);
    }
  }

  predicate GoodTables(files: Files) {
    files.version.Some? && (forall t: TableName :: GoodTable(files, t)) && files.crossing
  }

  lemma GoodStepsDoNotRaise(d: Db, files: Files, s: Step)
    requires GoodTables(files) && (s.RegistryStep? ==> GoodRegistry(files)) && !s.SystemStep?
    ensures !StepPlan(d, files, s).raises
  {
    assert GoodTable(files, Controls) && GoodTable(files, Themes) && GoodTable(files, Objectives);
    match s {
      case Plain(t) => assert GoodTable(files, t);
      case ObjectiveStep => GoodBatchesDoNotRaise(d, files.tables[Objectives].items, files.version.value, 0);
      case _ =>
    }
  }

  lemma {:induction false} GoodBatchesDoNotRaise(db: Db, items: seq<Item>, version: string, from: nat)
    requires Seedable(items, version) && from <= |items|
    ensures !Batches(db, items, version, from).raises
    decreases |items| - from
  {
    if from < |items| {
      var to := if from + BATCH < |items| then from + BATCH else |items|;
      SeedablePrefix(items, version, to);
      GoodBatchesDoNotRaise(db, items, version, to);
    }
  }

  lemma {:induction false} BadBatchesRaise(db: Db, items: seq<Item>, version: string, from: nat)
    requires !Seedable(items, version) && from <= |items| && (from == |items| ==> items == [])
    ensures Batches(db, items, version, from).raises
    decreases |items| - from
  {
    assert items[..|items|] == items;
    assert items != [];
    var to := if from + BATCH < |items| then from + BATCH else |items|;
    if to < |items| { BadBatchesRaise(db, items, version, to); }
  }

  lemma {:induction false} GoodSeedsDoNotRaise(db: Db, files: Files, steps: seq<Step>)
    requires GoodTables(files) && (RegistryStep in steps ==> GoodRegistry(files)) && SystemStep !in steps
    ensures !SeedPlan(db, files, steps).raises
    decreases |steps|
  {
    if steps != [] {
      GoodStepsDoNotRaise(db, files, steps[0]);
      GoodSeedsDoNotRaise(Last(db, StepPlan(db, files, steps[0])), files, steps[1..]);
    }
  }

  lemma ObjectivesStepFills(db: Db, files: Files)
    requires GoodTable(files, Objectives)
    ensures Rows(Last(db, ObjectivesPlan(db, files)), Objectives)
         == if Rows(db, Objectives) == [] then FileRows(files, Objectives) else Rows(db, Objectives)
  {
    var items := files.tables[Objectives].items;
    if Rows(db, Objectives) == [] && items != [] {
      GoodBatchesDoNotRaise(db, items, files.version.value, 0);
      BatchesFinish(db, items, files.version.value, 0);
    }
  }

  /**
   One seeder on its own.  It raises when the version cannot be read, when its table is empty and its
   file is there but not good, when the themes cannot be crossed with controls that are there, and
   when controls of this version want a registry whose file is bad.  A missing file never raises.
   */
  lemma SeederRaisesExactlyWhen(d: Db, files: Files, s: Step)
    requires !s.SystemStep?
    ensures StepPlan(d, files, s).raises <==>
            || files.version.None?
            || match s
               case RegistryStep =>
                 var file := if files.registry.Some? then files.registry else files.frameworks;
                 || '\0' in files.version.value
                 || (&& (exists r :: r in Rows(d, Controls) && r.version == files.version.value)
                     && files.version.value !in d.registries && file.Some? && !file.value.Misshapen?
                     && !(&& |files.version.value| <= 20 && file.value.Parsed?
                          && forall i :: i in file.value.items ==> i.Good?))
               case _ =>
                 var t := TableOf(s);
                 && Rows(d, t) == [] && t in files.tables
                 && !(&& GoodTable(files, t)
                      && (t.Themes? && Controls in files.tables ==> files.tables[Controls].Parsed? && files.crossing))
  {
    if s.ObjectiveStep? && files.version.Some? && Objectives in files.tables && files.tables[Objectives].Parsed? {
      var items := files.tables[Objectives].items;
      if Seedable(items, files.version.value) {
        GoodBatchesDoNotRaise(d, items, files.version.value, 0);
      } else {
        assert AllGood([]) && Stamp([], files.version.value) == [];
        BadBatchesRaise(d, items, files.version.value, 0);
      }
    }
  }

  function TableOf(s: Step): TableName
    requires !s.SystemStep? && !s.RegistryStep?
  {
    match s
    case Plain(t) => t
    case ObjectiveStep => Objectives
    case ThemeStep => Themes
  }

  /** One that does not raise fills its empty table from its file, if that is there, and does nothing else. */
  lemma SeederFillsExactly(d: Db, files: Files, s: Step, t: TableName)
    requires !s.SystemStep? && !StepPlan(d, files, s).raises
    ensures var d' := Last(d, StepPlan(d, files, s));
            && (!s.RegistryStep? && TableOf(s) == t && Rows(d, t) == [] && t in files.tables ==>
                  GoodTable(files, t) && Rows(d', t) == FileRows(files, t))
            && (s.RegistryStep? || TableOf(s) != t || Rows(d, t) != [] || t !in files.tables ==>
                  Rows(d', t) == Rows(d, t))
            && (d'.mappedFrom == if s.ThemeStep? && Rows(d, Themes) == [] && Rows(d', Themes) != []
                                 then (if Controls in files.tables && files.tables[Controls].Parsed?
                                       then Some(files.tables[Controls].items) else None)
                                 else d.mappedFrom)
            && (!s.RegistryStep? ==> d'.registries == d.registries)
            && d'.system == d.system && d'.nextId == d.nextId
  {
    SeederRaisesExactlyWhen(d, files, s);
    StepStates(d, files, s, |StepPlan(d, files, s).commits|);
    if s.ObjectiveStep? && t.Objectives? && Rows(d, t) == [] && t in files.tables {
      ObjectivesStepFills(d, files);
    }
  }

  /** The registry row of a version is written once, when there are controls of that version, from the file found. */
  lemma RegistrySeederWritesExactly(d: Db, files: Files)
    requires !StepPlan(d, files, RegistryStep).raises
    ensures var d' := Last(d, StepPlan(d, files, RegistryStep));
            var v, file := files.version.value, if files.registry.Some? then files.registry else files.frameworks;
            if (exists r :: r in Rows(d, Controls) && r.version == v) && v !in d.registries
               && file.Some? && !file.value.Misshapen?
            then
              && file.value.Parsed? && d'.registries.Keys == d.registries.Keys + {v}
              && |d'.registries[v]| == |file.value.items|
              && (forall k :: 0 <= k < |file.value.items| ==>
                    file.value.items[k].Good? && d'.registries[v][k] == file.value.items[k].row)
              && (forall u :: u in d.registries ==> d'.registries[u] == d.registries[u])
            else d' == d
  {
    SeederRaisesExactlyWhen(d, files, RegistryStep);
    if GoodRegistry(files) {
      var items := RegistrySource(files).value.items;
      assert forall k :: 0 <= k < |items| ==> items[k] in items && RowsOf(items)[k] == items[k].row;
    }
  }

  /** A seed that runs to its end fills an empty objectives table with the whole file, and leaves any other as it is. */
  lemma {:induction false} ObjectivesOutcome(db: Db, files: Files, steps: seq<Step>)
    requires GoodTable(files, Objectives) && !SeedPlan(db, files, steps).raises
    ensures Rows(Last(db, SeedPlan(db, files, steps)), Objectives)
         == if Rows(db, Objectives) == [] && ObjectiveStep in steps then FileRows(files, Objectives)
            else Rows(db, Objectives)
    decreases |steps|
  {
    if steps != [] {
      var first := StepPlan(db, files, steps[0]);
      var middle := Last(db, first);
      var rest := SeedPlan(middle, files, steps[1..]);
      ObjectivesOutcome(middle, files, steps[1..]);
      AfterSplits(db, first, rest, |first.commits + rest.commits|);
      if steps[0].ObjectiveStep? {
        ObjectivesStepFills(db, files);
      } else {
        StepStates(db, files, steps[0], |first.commits|);
      }
    }
  }

  /** The tables these files describe, with the objectives as given. */
  ghost predicate Holds(d: Db, files: Files, objectives: seq<Stamped>)
    requires GoodTables(files) && GoodRegistry(files)
  {
    && (forall t: TableName :: t != Objectives ==> GoodTable(files, t) && Rows(d, t) == FileRows(files, t))
    && Rows(d, Objectives) == objectives
    && (Rows(d, Themes) == [] ==> d.mappedFrom.None?)
    && (Rows(d, Themes) != [] ==> ControlsForThemes(files) == Some(d.mappedFrom))
    && d.registries == (if Rows(d, Controls) == [] then map[] else Registered(files))
  }

  /** The table of a step with nothing to do, among parts of good files, is full. */
  lemma NoOpIsFull(d: Db, files: Files, t: TableName)
    requires PartOf(d, files) && GoodTables(files) && t != Objectives && NoOp(d, files, StepOf(t))
    ensures GoodTable(files, t) && Rows(d, t) == FileRows(files, t)
  {
    assert GoodTable(files, t);
    if Rows(d, t) == [] { TableNoOp(d, files, StepOf(t), t); }
  }

  lemma NoOpIsRegistered(d: Db, files: Files)
    requires PartOf(d, files) && GoodRegistry(files) && NoOp(d, files, RegistryStep)
    requires GoodTable(files, Controls) && Rows(d, Controls) == FileRows(files, Controls)
    ensures d.registries == (if Rows(d, Controls) == [] then map[] else Registered(files))
  {
    if Rows(d, Controls) != [] {
      assert Rows(d, Controls)[0] in Rows(d, Controls) && Rows(d, Controls)[0].version == files.version.value;
      var registered := d.(registries := d.registries + Registered(files));
      assert files.version.value !in d.registries ==> registered in RegistryPlan(d, files).commits;
    }
  }

  function Seeded(db: Db, files: Files): Db {
    Last(db, SeedPlan(db, files, ORDER))
  }

  lemma SeedKeepsPartOf(d: Db, files: Files, steps: seq<Step>, k: nat)
    requires PartOf(d, files)
    ensures PartOf(After(d, SeedPlan(d, files, steps), k), files)
  {
    var property := (x: Db) => PartOf(x, files);
    forall x, s ensures Keeps(x, StepPlan(x, files, s), property) { StepsKeepPartOf(x, files, s); }
    SeedKeeps(d, files, steps, property);
    assert property(After(d, SeedPlan(d, files, steps), k));
  }

  /** Nothing is seeded after the registry. */
  predicate RegistryLast(steps: seq<Step>) {
    forall i :: 0 <= i < |steps| - 1 ==> !steps[i].RegistryStep?
  }

  /** The order of the first six seeders, as far as it matters. */
  predicate SeedsEveryTable(steps: seq<Step>) {
    && (forall t: TableName :: Seeds(steps, t)) && RegistryStep in steps && SystemStep !in steps
    && RegistryLast(steps)
  }

  predicate Seeds(steps: seq<Step>, t: TableName) {
    StepOf(t) in steps
  }

  lemma CatalogStepsSeedEveryTable()
    ensures SeedsEveryTable(CATALOG_STEPS)
  {
    forall t: TableName
      ensures Seeds(CATALOG_STEPS, t)
    {
      match t { case Controls => case Domains => case Evidence => case Objectives => case Themes => }
    }
    assert CATALOG_STEPS[5] == RegistryStep;
  }

  /** From any part of what good files hold, the six catalogue seeders complete all but the objectives. */
  lemma CatalogCompletes(d: Db, files: Files, steps: seq<Step>)
    requires PartOf(d, files) && GoodTables(files) && GoodRegistry(files) && SeedsEveryTable(steps)
    ensures GoodTable(files, Objectives) && !SeedPlan(d, files, steps).raises
    ensures Holds(Last(d, SeedPlan(d, files, steps)), files,
                  if Rows(d, Objectives) == [] then FileRows(files, Objectives) else Rows(d, Objectives))
  {
    var final := Last(d, SeedPlan(d, files, steps));
    assert GoodTable(files, Objectives);
    GoodSeedsDoNotRaise(d, files, steps);
    SeedSettles(d, files, steps);
    assert Seeds(steps, Objectives);
    ObjectivesOutcome(d, files, steps);
    SeedKeepsPartOf(d, files, steps, |SeedPlan(d, files, steps).commits|);
    forall t: TableName | t != Objectives
      ensures GoodTable(files, t) && Rows(final, t) == FileRows(files, t)
    {
      assert Seeds(steps, t);
      NoOpIsFull(final, files, t);
    }
    NoOpIsRegistered(final, files);
  }

  /** The system templates cannot be read, or the upsert of some listed one raises. */
  ghost predicate SystemRefused(system: SystemCatalog.Table, files: Files) {
    files.systems.None? || SystemCatalog.SomeOffends(system, files.systems.value)
  }

  lemma SystemStepRaisesExactlyWhen(d: Db, files: Files)
    ensures SystemPlan(d, files).raises <==> SystemRefused(d.system, files)
  {
    if files.systems.Some? {
      SystemCatalog.RaisesExactlyWhen(d.system, d.nextId, files.systems.value);
    }
  }

  /** What becomes of the system templates: nothing if the seeder raises, else what the upsert leaves. */
  ghost predicate SystemsSeeded(before: Db, files: Files, after: Db) {
    if SystemRefused(before.system, files) then after.system == before.system
    else
      && SystemCatalog.Upsert(before.system, before.nextId, files.systems.value).Some?
      && after.system == SystemCatalog.Upsert(before.system, before.nextId, files.systems.value).value.table
  }

  /** The first six seeders leave the system templates alone. */
  lemma CatalogStepsKeepSystem(db: Db, files: Files, steps: seq<Step>, k: nat)
    requires SystemStep !in steps
    ensures var d := After(db, SeedPlan(db, files, steps), k); d.system == db.system && d.nextId == db.nextId
  {
    var property := (d: Db) => d.system == db.system && d.nextId == db.nextId;
    forall d, s | s in steps
      ensures Keeps(d, StepPlan(d, files, s), property)
    {
      forall j: nat | property(d)
        ensures property(After(d, StepPlan(d, files, s), j))
      {
        StepStates(d, files, s, j);
      }
    }
    SeedKeeps(db, files, steps, property);
    assert property(After(db, SeedPlan(db, files, steps), k));
  }

  /** The whole order is the first six seeders and then, unless one of them raised, the system templates. */
  lemma OrderSplits(db: Db, files: Files)
    ensures var first := SeedPlan(db, files, CATALOG_STEPS);
            SeedPlan(db, files, ORDER) == Then(first, SystemPlan(Last(db, first), files))
  {
    SeedPlanSplits(db, files, CATALOG_STEPS, [SystemStep]);
    OneStep(Last(db, SeedPlan(db, files, CATALOG_STEPS)), files, SystemStep);
  }

  lemma OneStep(db: Db, files: Files, s: Step)
    ensures SeedPlan(db, files, [s]) == StepPlan(db, files, s)
  {
    assert [s][1..] == [];
    assert SeedPlan(Last(db, StepPlan(db, files, s)), files, []) == Plan([], false);
  }

  /** After six completed seeders, the seventh decides how the seed ends and what becomes of the templates. */
  lemma SeventhSeeder(d: Db, files: Files)
    requires !SeedPlan(d, files, CATALOG_STEPS).raises
    ensures var middle := Last(d, SeedPlan(d, files, CATALOG_STEPS));
            && SeedPlan(d, files, ORDER).raises == SystemPlan(middle, files).raises
            && Seeded(d, files) == Last(middle, SystemPlan(middle, files))
            && middle.system == d.system && middle.nextId == d.nextId
  {
    OrderSplits(d, files);
    var first := SeedPlan(d, files, CATALOG_STEPS);
    var system := SystemPlan(Last(d, first), files);
    CatalogStepsKeepSystem(d, files, CATALOG_STEPS, |first.commits|);
    LastOfThen(d, first, system);
  }

  lemma SystemOutcome(d: Db, files: Files)
    ensures var d' := Last(d, SystemPlan(d, files));
            d' == d.(system := d'.system, nextId := d'.nextId) && SystemsSeeded(d, files, d')
  {
    SystemStepRaisesExactlyWhen(d, files);
    if files.systems.Some? {
      SystemCatalog.RaisesExactlyWhen(d.system, d.nextId, files.systems.value);
    }
  }

  lemma SeventhOutcome(d: Db, files: Files)
    requires !SeedPlan(d, files, CATALOG_STEPS).raises
    ensures SeedPlan(d, files, ORDER).raises <==> SystemRefused(d.system, files)
    ensures SystemsSeeded(d, files, Seeded(d, files))
    ensures var middle := Last(d, SeedPlan(d, files, CATALOG_STEPS));
            Seeded(d, files) == middle.(system := Seeded(d, files).system, nextId := Seeded(d, files).nextId)
  {
    SeventhSeeder(d, files);
    var middle := Last(d, SeedPlan(d, files, CATALOG_STEPS));
    SystemStepRaisesExactlyWhen(middle, files);
    SystemOutcome(middle, files);
  }

  lemma HoldsIgnoresSystems(d: Db, d': Db, files: Files, objectives: seq<Stamped>)
    requires GoodTables(files) && GoodRegistry(files) && Holds(d, files, objectives)
    requires d' == d.(system := d'.system, nextId := d'.nextId)
    ensures Holds(d', files, objectives)
  {
    forall t: TableName | t != Objectives
      ensures GoodTable(files, t) && Rows(d', t) == FileRows(files, t)
    {
      assert Rows(d', t) == Rows(d, t);
    }
  }

  /**
   From any part of what good files hold, a startup seed completes all six catalogue tables but the
   objectives, and then raises exactly when the system templates cannot be read or one of them
   offends; it then leaves the templates alone, and otherwise leaves them as the upsert does.
   */
  lemma SeedCompletes(d: Db, files: Files)
    requires PartOf(d, files) && GoodTables(files) && GoodRegistry(files)
    ensures GoodTable(files, Objectives)
    ensures SeedPlan(d, files, ORDER).raises <==> SystemRefused(d.system, files)
    ensures Holds(Seeded(d, files), files,
                  if Rows(d, Objectives) == [] then FileRows(files, Objectives) else Rows(d, Objectives))
    ensures SystemsSeeded(d, files, Seeded(d, files))
  {
    CatalogStepsSeedEveryTable();
    CatalogCompletes(d, files, CATALOG_STEPS);
    SeventhOutcome(d, files);
    HoldsIgnoresSystems(Last(d, SeedPlan(d, files, CATALOG_STEPS)), Seeded(d, files), files,
                        if Rows(d, Objectives) == [] then FileRows(files, Objectives) else Rows(d, Objectives));
  }

  /**
   Once a seed has run to its end, seeding again from the same files changes nothing, and raises
   exactly when a system template is listed with two versions.
   */
  lemma SecondSeedChangesNothing(db: Db, files: Files, k: nat)
    requires !SeedPlan(db, files, ORDER).raises
    ensures files.systems.Some?
    ensures var seeded := Seeded(db, files);
            && After(seeded, SeedPlan(seeded, files, ORDER), k) == seeded
            && (SeedPlan(seeded, files, ORDER).raises <==> !SystemCatalog.OneVersionEach(files.systems.value))
  {
    OrderSplits(db, files);
    SeventhSeeder(db, files);
    var middle := Last(db, SeedPlan(db, files, CATALOG_STEPS));
    SecondSystemStep(middle, files);
    SixSeedersAreDone(db, files);
    SecondSeedIsTheSeventh(Seeded(db, files), files, k);
  }

  lemma SixSeedersAreDone(db: Db, files: Files)
    requires !SeedPlan(db, files, CATALOG_STEPS).raises
    ensures forall s :: s in CATALOG_STEPS ==> NoOp(Seeded(db, files), files, s)
  {
    SeventhSeeder(db, files);
    SeedSettles(db, files, CATALOG_STEPS);
    SystemStepLeavesNoOps(Last(db, SeedPlan(db, files, CATALOG_STEPS)), files, CATALOG_STEPS);
  }

  lemma SystemStepLeavesNoOps(d: Db, files: Files, steps: seq<Step>)
    requires SystemStep !in steps && forall s :: s in steps ==> NoOp(d, files, s)
    ensures forall s :: s in steps ==> NoOp(Last(d, SystemPlan(d, files)), files, s)
  {
    forall s | s in steps
      ensures NoOp(Last(d, SystemPlan(d, files)), files, s)
    {
      NoOpsPersist(d, files, s, SystemStep, |SystemPlan(d, files).commits|);
    }
  }

  /** With the first six seeders done, a seed is its seventh step. */
  lemma SecondSeedIsTheSeventh(d: Db, files: Files, k: nat)
    requires forall s :: s in CATALOG_STEPS ==> NoOp(d, files, s)
    requires forall c :: c in SystemPlan(d, files).commits ==> c == d
    ensures SeedPlan(d, files, ORDER).raises == SystemPlan(d, files).raises
    ensures After(d, SeedPlan(d, files, ORDER), k) == d
  {
    var first := SeedPlan(d, files, CATALOG_STEPS);
    NoOpsRun(d, files, CATALOG_STEPS, |first.commits|);
    NoOpsRun(d, files, CATALOG_STEPS, k);
    OrderSplits(d, files);
    var system := SystemPlan(d, files);
    AfterSplits(d, first, system, k);
    assert forall j: nat :: After(d, system, j) == d || After(d, system, j) in system.commits;
  }

  lemma SecondSystemStep(d: Db, files: Files)
    requires !SystemPlan(d, files).raises
    ensures files.systems.Some?
    ensures var d' := Last(d, SystemPlan(d, files));
            && (SystemPlan(d', files).raises <==> !SystemCatalog.OneVersionEach(files.systems.value))
            && forall c :: c in SystemPlan(d', files).commits ==> c == d'
  {
    if files.systems.value != [] {
      SystemCatalog.SecondRunRaisesExactlyWhen(d.system, d.nextId, files.systems.value);
    }
  }

  lemma GoodFilesAreNotMissing(files: Files)
    requires GoodTables(files) && GoodRegistry(files)
    ensures PassesGuard(files)
  {
    forall t: TableName ensures Readable(FileOf(files, t)) { assert GoodTable(files, t); }
  }

  /**
   A reseed from good files leaves exactly what the files hold, whatever was there before; it raises
   at its very end exactly when the system templates cannot be read or one of them offends.
   */
  lemma ReseedDependsOnFilesOnly(db: Db, files: Files)
    requires GoodTables(files) && GoodRegistry(files)
    ensures PassesGuard(files) && GoodTable(files, Objectives)
    ensures ReseedPlan(db, files).raises <==> SystemRefused(db.system, files)
    ensures Holds(Last(db, ReseedPlan(db, files)), files, FileRows(files, Objectives))
    ensures SystemsSeeded(db, files, Last(db, ReseedPlan(db, files)))
  {
    GoodFilesAreNotMissing(files);
    SeedCompletes(Cleared(db), files);
    ReseedSplits(db, files, |ReseedPlan(db, files).commits|);
  }

  /**
   Spelled out: one row for every entry of every table file, in order, with its key, its text and the
   version; the mappings computed from the entries of the controls file; and, beside controls, the
   one registry row, from framework_registry.json if that is there and else from the list of names.
   */
  lemma ReseedLeavesTheEntries(db: Db, files: Files)
    requires GoodTables(files) && GoodRegistry(files)
    ensures var d, version := Last(db, ReseedPlan(db, files)), files.version.value;
            && (forall t: TableName ::
                  && t in files.tables && files.tables[t].Parsed? && |Rows(d, t)| == |files.tables[t].items|
                  && forall k :: 0 <= k < |Rows(d, t)| ==>
                       var item := files.tables[t].items[k];
                       item.Good? && Rows(d, t)[k] == Stamped(item.key, item.row, version))
            && (Rows(d, Themes) != [] ==> d.mappedFrom == Some(files.tables[Controls].items))
            && (Rows(d, Themes) == [] ==> d.mappedFrom.None?)
            && (Rows(d, Controls) == [] ==> d.registries == map[])
            && (Rows(d, Controls) != [] ==>
                  d.registries.Keys == {version} &&
                  var file := if files.registry.Some? then files.registry.value else files.frameworks.value;
                  |d.registries[version]| == |file.items| &&
                  forall k :: 0 <= k < |file.items| ==>
                    file.items[k].Good? && d.registries[version][k] == file.items[k].row)
  {
    ReseedDependsOnFilesOnly(db, files);
    var d := Last(db, ReseedPlan(db, files));
    forall t: TableName
      ensures GoodTable(files, t) && Rows(d, t) == FileRows(files, t)
    {
      assert GoodTable(files, t);
    }
    assert GoodTable(files, Controls) && GoodTable(files, Themes);
  }

  lemma HoldsOneWay(d: Db, files: Files, objectives: seq<Stamped>, others: seq<Stamped>)
    requires GoodTables(files) && GoodRegistry(files) && Holds(d, files, objectives)
    ensures Holds(d, files, others) <==> objectives == others
  {
  }

  /**
   A reseed cut short after its delete is repaired by the next startup seed exactly when the cut
   did not fall between two batches of objectives; otherwise the table stays a proper prefix.
   */
  lemma CrashedReseedRecoversExactlyWhen(db: Db, files: Files, k: nat)
    requires GoodTables(files) && GoodRegistry(files) && k >= 1
    ensures GoodTable(files, Objectives)
    ensures var crashed := After(db, ReseedPlan(db, files), k);
            Holds(Seeded(crashed, files), files, FileRows(files, Objectives)) <==>
            (Rows(crashed, Objectives) == [] || Rows(crashed, Objectives) == FileRows(files, Objectives))
  {
    GoodFilesAreNotMissing(files);
    ReseedSplits(db, files, k);
    SeedsAreAllOrNothing(db, files, k - 1);
    PartRecoversExactlyWhen(After(db, ReseedPlan(db, files), k), files);
  }

  lemma PartRecoversExactlyWhen(d: Db, files: Files)
    requires PartOf(d, files) && GoodTables(files) && GoodRegistry(files)
    ensures GoodTable(files, Objectives)
    ensures Holds(Seeded(d, files), files, FileRows(files, Objectives)) <==>
            (Rows(d, Objectives) == [] || Rows(d, Objectives) == FileRows(files, Objectives))
  {
    SeedCompletes(d, files);
    var objectives := if Rows(d, Objectives) == [] then FileRows(files, Objectives) else Rows(d, Objectives);
    HoldsOneWay(Seeded(d, files), files, objectives, FileRows(files, Objectives));
  }

  /** With any required input missing or unreadable, or one that makes the guard itself raise, nothing changes. */
  lemma RefusedReseedChangesNothing(db: Db, files: Files, k: nat)
    requires !PassesGuard(files)
    ensures After(db, ReseedPlan(db, files), k) == db
    ensures ReseedPlan(db, files).raises <==> GuardRaises(files)
  {
  }

  lemma ThenIsAssociative(a: Plan, b: Plan, c: Plan)
    ensures Then(a, Then(b, c)) == Then(Then(a, b), c)
  {
    assert a.commits + (b.commits + c.commits) == (a.commits + b.commits) + c.commits;
  }

  lemma LastOfThen(db: Db, first: Plan, rest: Plan)
    requires !first.raises
    ensures Last(db, Then(first, rest)) == Last(Last(db, first), rest)
  {
    AfterSplits(db, first, rest, |first.commits + rest.commits|);
  }

  lemma {:induction false} SeedPlanSplits(db: Db, files: Files, xs: seq<Step>, ys: seq<Step>)
    ensures var first := SeedPlan(db, files, xs);
            SeedPlan(db, files, xs + ys) == Then(first, SeedPlan(Last(db, first), files, ys))
    decreases |xs|
  {
    if xs == [] {
      assert xs + ys == ys;
      assert SeedPlan(db, files, xs) == Plan([], false);
    } else {
      var first := StepPlan(db, files, xs[0]);
      assert (xs + ys)[0] == xs[0] && (xs + ys)[1..] == xs[1..] + ys;
      if !first.raises {
        var middle := Last(db, first);
        var rest := SeedPlan(middle, files, xs[1..]);
        SeedPlanSplits(middle, files, xs[1..], ys);
        LastOfThen(db, first, rest);
        ThenIsAssociative(first, rest, SeedPlan(Last(middle, rest), files, ys));
      }
    }
  }

  /** A file that parses but does not give good rows makes the seed of its empty table raise. */
  lemma {:induction false} BadTableRaises(db: Db, files: Files, steps: seq<Step>, t: TableName)
    requires StepOf(t) in steps && Rows(db, t) == [] && t in files.tables && !GoodTable(files, t)
    ensures SeedPlan(db, files, steps).raises
    decreases |steps|
  {
    var first := StepPlan(db, files, steps[0]);
    if steps[0] == StepOf(t) {
      if t == Objectives && files.version.Some? && files.tables[t].Parsed? {
        BadBatchesRaise(db, files.tables[t].items, files.version.value, 0);
      }
    } else if !first.raises {
      StepStates(db, files, steps[0], |first.commits|);
      BadTableRaises(Last(db, first), files, steps[1..], t);
    }
  }

  /** With good tables, the first six seeders of a reseed raise exactly on a bad registry beside controls. */
  const TABLES := [Controls, Domains, Evidence, Objectives, Themes]

  /** Table n is empty and has a bad file; those from m on before it have good ones. */
  ghost predicate FirstBadFile(db: Db, files: Files, m: nat, n: nat) {
    && m <= n < |TABLES| && files.version.Some?
    && (forall k :: m <= k < n ==> GoodTable(files, TABLES[k]))
    && TABLES[n] in files.tables && !GoodTable(files, TABLES[n]) && Rows(db, TABLES[n]) == []
  }

  /**
   The order of the seeders shows when a file is bad: the empty tables before its own are filled, and
   from its own on nothing is, but for whole batches of objectives.
   */
  lemma FirstBadFileEndsTheSeed(db: Db, files: Files, n: nat, k: nat)
    requires FirstBadFile(db, files, 0, n) && k < |TABLES|
    ensures SeedPlan(db, files, ORDER).raises
    ensures var t, d := TABLES[k], Last(db, SeedPlan(db, files, ORDER));
            && d.registries == db.registries && d.system == db.system
            && (k < n ==> Rows(d, t) == if Rows(db, t) == [] then FileRows(files, t) else Rows(db, t))
            && (k > n || (k == n && !t.Objectives?) ==> Rows(d, t) == Rows(db, t))
  {
    SeedersUpTo(db, files, 0, n, k);
    assert ORDER[0..] == ORDER;
  }

  lemma {:induction false} SeedersUpTo(db: Db, files: Files, m: nat, n: nat, k: nat)
    requires FirstBadFile(db, files, m, n) && k < |TABLES|
    ensures SeedPlan(db, files, ORDER[m..]).raises
    ensures var t, d := TABLES[k], Last(db, SeedPlan(db, files, ORDER[m..]));
            && d.registries == db.registries && d.system == db.system
            && (m <= k < n ==> Rows(d, t) == if Rows(db, t) == [] then FileRows(files, t) else Rows(db, t))
            && (k < m || k > n || (k == n && !t.Objectives?) ==> Rows(d, t) == Rows(db, t))
    decreases n - m
  {
    var s := ORDER[m];
    assert s == StepOf(TABLES[m]) && ORDER[m..][0] == s && ORDER[m..][1..] == ORDER[m + 1..];
    var first := StepPlan(db, files, s);
    SeederRaisesExactlyWhen(db, files, s);
    if m == n {
      StepStates(db, files, s, |first.commits|);
    } else {
      var d := Last(db, first);
      SeederFillsExactly(db, files, s, TABLES[k]);
      SeederFillsExactly(db, files, s, TABLES[n]);
      SeedersUpTo(d, files, m + 1, n, k);
      LastOfThen(db, first, SeedPlan(d, files, ORDER[m + 1..]));
    }
  }

  lemma CatalogRaisesExactlyWhen(db: Db, files: Files)
    requires GoodTables(files) && PassesGuard(files) && Sendable(files.version.value)
    ensures GoodTable(files, Controls) && RegistrySource(files).Some?
    ensures SeedPlan(Cleared(db), files, CATALOG_STEPS).raises <==>
            FileRows(files, Controls) != [] && !GoodRegistry(files) && !RegistrySource(files).value.Misshapen?
  {
    var tables := CATALOG_STEPS[..5];
    var empty := Cleared(db);
    assert GoodTable(files, Controls);
    GoodSeedsDoNotRaise(empty, files, tables);
    assert CATALOG_STEPS == tables + [RegistryStep];
    SeedPlanSplits(empty, files, tables, [RegistryStep]);
    var before := Last(empty, SeedPlan(empty, files, tables));
    SeedSettles(empty, files, tables);
    SeedKeepsPartOf(empty, files, tables, |SeedPlan(empty, files, tables).commits|);
    NothingRegisteredYet(empty, files, tables);
    assert StepOf(Controls) in tables;
    NoOpIsFull(before, files, Controls);
    LastStepRaisesExactlyWhen(before, files);
  }

  lemma LastStepRaisesExactlyWhen(d: Db, files: Files)
    requires GoodTable(files, Controls) && Rows(d, Controls) == FileRows(files, Controls) && d.registries == map[]
    requires RegistrySource(files).Some? && Sendable(files.version.value)
    ensures SeedPlan(d, files, [RegistryStep]).raises <==>
            FileRows(files, Controls) != [] && !GoodRegistry(files) && !RegistrySource(files).value.Misshapen?
  {
    OneStep(d, files, RegistryStep);
    if Rows(d, Controls) != [] {
      assert Rows(d, Controls)[0] in Rows(d, Controls) && Rows(d, Controls)[0].version == files.version.value;
    }
  }

  /** A version that cannot be sent makes the registry seeder raise, if no seeder before it has. */
  lemma {:induction false} UnsendableVersionRaises(db: Db, files: Files, steps: seq<Step>)
    requires RegistryStep in steps && files.version.Some? && !Sendable(files.version.value)
    ensures SeedPlan(db, files, steps).raises
    decreases |steps|
  {
    var first := StepPlan(db, files, steps[0]);
    if steps[0] != RegistryStep && !first.raises {
      UnsendableVersionRaises(Last(db, first), files, steps[1..]);
    }
  }

  /** So do controls that cannot be crossed with the themes, if no seeder before has raised. */
  lemma {:induction false} FailedCrossingRaises(db: Db, files: Files, steps: seq<Step>)
    requires ThemeStep in steps && Rows(db, Themes) == [] && Themes in files.tables
    requires Controls in files.tables && !files.crossing
    ensures SeedPlan(db, files, steps).raises
    decreases |steps|
  {
    var first := StepPlan(db, files, steps[0]);
    if steps[0] != ThemeStep && !first.raises {
      StepStates(db, files, steps[0], |first.commits|);
      FailedCrossingRaises(Last(db, first), files, steps[1..]);
    }
  }

  /** What makes a reseed raise after its delete, although its guard was content. */
  ghost predicate PassesButRaises(db: Db, files: Files)
    requires PassesGuard(files)
  {
    || files.version.None? || !Sendable(files.version.value)
    || (exists t: TableName :: !GoodTable(files, t))
    || !files.crossing
    || (FileOf(files, Controls) != Some(Parsed([])) && !GoodRegistry(files) && RegistrySource(files) != Some(Misshapen))
    || SystemRefused(db.system, files)
  }

  /**
   What the guard does not cover.  A reseed that passes it raises after its delete exactly when the
   version file cannot be read or holds text the database does not take, or some required table file
   does not give rows its table takes, or the theme mappings cannot be computed from the controls,
   or there are controls and the registry file the seeder reads does not give good rows (it reads
   framework_registry.json whenever that is there, while the guard is content with either file), or
   the system templates cannot be read or one of them offends.
   */
  lemma GuardedReseedRaisesExactlyWhen(db: Db, files: Files)
    requires PassesGuard(files)
    ensures ReseedPlan(db, files).raises <==> PassesButRaises(db, files)
  {
    var empty := Cleared(db);
    OrderSplits(empty, files);
    assert Readable(FileOf(files, Themes)) && Readable(FileOf(files, Controls));
    if t: TableName :| !GoodTable(files, t) {
      assert Readable(FileOf(files, t));
      assert StepOf(t) in CATALOG_STEPS;
      BadTableRaises(empty, files, CATALOG_STEPS, t);
    } else {
      assert GoodTable(files, Controls);
      if !files.crossing {
        FailedCrossingRaises(empty, files, CATALOG_STEPS);
      } else if !Sendable(files.version.value) {
        UnsendableVersionRaises(empty, files, CATALOG_STEPS);
      } else {
        CatalogRaisesExactlyWhen(db, files);
        var first := SeedPlan(empty, files, CATALOG_STEPS);
        CatalogStepsKeepSystem(empty, files, CATALOG_STEPS, |first.commits|);
        SystemStepRaisesExactlyWhen(Last(empty, first), files);
      }
    }
  }

  lemma {:induction false} NothingRegisteredYet(db: Db, files: Files, steps: seq<Step>)
    requires RegistryStep !in steps && !SeedPlan(db, files, steps).raises
    ensures Last(db, SeedPlan(db, files, steps)).registries == db.registries
    decreases |steps|
  {
    if steps != [] {
      var first := StepPlan(db, files, steps[0]);
      var middle := Last(db, first);
      StepStates(db, files, steps[0], |first.commits|);
      NothingRegisteredYet(middle, files, steps[1..]);
      var rest := SeedPlan(middle, files, steps[1..]);
      AfterSplits(db, first, rest, |first.commits + rest.commits|);
    }
  }

  predicate ReadsAsJson(file: File) {
    file.GuardOnly? || file.Misshapen? || file.Parsed?
  }

  /** All five table files and one of the two registry files must read as JSON; the second is a substitute. */
  lemma GuardPassesExactlyWhen(files: Files)
    ensures PassesGuard(files) <==>
            && (forall t: TableName :: t in files.tables && ReadsAsJson(files.tables[t]))
            && match files.registry
               case Some(Parsed(_)) => true
               case Some(Misshapen) => true
               case Some(GuardOnly) => true
               case Some(TooDeep) => false
               case _ => files.frameworks.Some? && ReadsAsJson(files.frameworks.value)
  {
    if PassesGuard(files) {
      forall t: TableName
        ensures t in files.tables && ReadsAsJson(files.tables[t])
      {
        assert Readable(FileOf(files, t));
      }
    }
  }

  /** The guard raises itself when a file it gets to read is too deep; else what does not pass is refused. */
  lemma GuardRaisesExactlyWhen(db: Db, files: Files)
    requires !PassesGuard(files)
    ensures ReseedPlan(db, files).commits == []
    ensures ReseedPlan(db, files).raises <==>
            || (exists t: TableName :: t in files.tables && files.tables[t].TooDeep?)
            || match files.registry
               case Some(Parsed(_)) => false
               case Some(Misshapen) => false
               case Some(GuardOnly) => false
               case Some(TooDeep) => true
               case _ => files.frameworks.Some? && files.frameworks.value.TooDeep?
  {
    if t: TableName :| t in files.tables && files.tables[t].TooDeep? {
      assert FileOf(files, t) == Some(TooDeep);
    }
  }

  // Each way past the guard is open.

  /** Five tables of one row each, a list of framework names, and no system templates. */
  function OneRowFiles(): Files {
    var one := Parsed([Good("k", "x")]);
    Files(Some("2026.2"), map[Controls := one, Domains := one, Evidence := one, Objectives := one, Themes := one],
          true, None, Some(one), Some([]))
  }

  lemma OneRowFilesAreGood()
    ensures GoodTables(OneRowFiles()) && GoodRegistry(OneRowFiles())
  {
    var files := OneRowFiles();
    forall t: TableName
      ensures GoodTable(files, t)
    {
      match t { case Controls => case Domains => case Evidence => case Objectives => case Themes => }
    }
  }

  lemma WithOneTable(t: TableName, file: File) returns (files: Files)
    requires !file.Unparsable? && !file.TooDeep?
    ensures files == OneRowFiles().(tables := OneRowFiles().tables[t := file])
    ensures PassesGuard(files) && GoodRegistry(files)
  {
    OneRowFilesAreGood();
    files := OneRowFiles().(tables := OneRowFiles().tables[t := file]);
    forall u: TableName
      ensures Readable(FileOf(files, u))
    {
      assert GoodTable(OneRowFiles(), u);
    }
  }

  /** A corrupt registry file beside a readable list of names. */
  lemma CorruptRegistryPassesTheGuard() returns (files: Files)
    ensures GoodTables(files) && PassesGuard(files) && files.systems == Some([])
    ensures forall db :: ReseedPlan(db, files).raises
  {
    OneRowFilesAreGood();
    files := OneRowFiles().(registry := Some(Unparsable));
    forall t: TableName ensures GoodTable(files, t) { assert GoodTable(OneRowFiles(), t); }
    forall t: TableName ensures Readable(FileOf(files, t)) { assert GoodTable(files, t); }
    forall db ensures ReseedPlan(db, files).raises { GuardedReseedRaisesExactlyWhen(db, files); }
  }

  /** A table file that parses and holds one bad entry. */
  lemma BadEntryPassesTheGuard() returns (files: Files)
    ensures PassesGuard(files) && GoodRegistry(files) && files.systems == Some([])
    ensures forall db :: ReseedPlan(db, files).raises
  {
    files := WithOneTable(Evidence, Parsed([Good("k", "x"), Bad]));
    assert Bad in [Good("k", "x"), Bad];
    assert !GoodTable(files, Evidence);
    forall db ensures ReseedPlan(db, files).raises { GuardedReseedRaisesExactlyWhen(db, files); }
  }

  /** One that holds two entries with one key, each of them good. */
  lemma RepeatedKeyPassesTheGuard() returns (files: Files)
    ensures PassesGuard(files) && GoodRegistry(files) && files.systems == Some([])
    ensures forall db :: ReseedPlan(db, files).raises
  {
    var items := [Good("k", "x"), Good("k", "y")];
    files := WithOneTable(Evidence, Parsed(items));
    assert AllGood(items) ==> Stamp(items, "2026.2")[0].key == Stamp(items, "2026.2")[1].key;
    assert !GoodTable(files, Evidence);
    forall db ensures ReseedPlan(db, files).raises { GuardedReseedRaisesExactlyWhen(db, files); }
  }

  /** One with a byte-order mark, which the guard reads and the seeder does not. */
  lemma ByteOrderMarkPassesTheGuard() returns (files: Files)
    ensures PassesGuard(files) && GoodRegistry(files) && files.systems == Some([])
    ensures forall db :: ReseedPlan(db, files).raises
  {
    files := WithOneTable(Evidence, GuardOnly);
    assert !GoodTable(files, Evidence);
    forall db ensures ReseedPlan(db, files).raises { GuardedReseedRaisesExactlyWhen(db, files); }
  }

  /** A version file that cannot be decoded, or a version longer than its columns, with every guarded input in order. */
  lemma BadVersionPassesTheGuard(version: Option<string>) returns (files: Files)
    requires version.None? || |version.value| > 20
    ensures PassesGuard(files) && files.version == version && files.systems == Some([])
    ensures forall db :: ReseedPlan(db, files).raises
  {
    OneRowFilesAreGood();
    files := OneRowFiles().(version := version);
    forall t: TableName ensures Readable(FileOf(files, t)) { assert GoodTable(OneRowFiles(), t); }
    var items := files.tables[Controls].items;
    assert version.Some? && AllGood(items) ==> Stamp(items, version.value)[0] in Stamp(items, version.value);
    assert !GoodTable(files, Controls);
    forall db ensures ReseedPlan(db, files).raises { GuardedReseedRaisesExactlyWhen(db, files); }
  }

  /** A control that is stored and cannot be mapped to themes: the reseed raises with the controls in place. */
  lemma UnmappableControlPassesTheGuard(db: Db) returns (files: Files, k: nat)
    ensures PassesGuard(files) && GoodRegistry(files) && files.systems == Some([]) && ReseedPlan(db, files).raises
    ensures GoodTable(files, Controls)
    ensures Rows(After(db, ReseedPlan(db, files), k), Controls) == FileRows(files, Controls)
  {
    OneRowFilesAreGood();
    files := OneRowFiles().(crossing := false);
    k := 2;
    forall t: TableName
      ensures Readable(FileOf(files, t)) && GoodTable(files, t)
    {
      assert GoodTable(OneRowFiles(), t);
    }
    GuardedReseedRaisesExactlyWhen(db, files);
    var empty := Cleared(db);
    var first := PlainPlan(empty, files, Controls);
    assert ORDER[0] == Plain(Controls);
    ReseedSplits(db, files, k);
    AfterSplits(empty, first, SeedPlan(Last(empty, first), files, ORDER[1..]), 1);
  }

  /** A template file that cannot be decoded. */
  lemma UndecodableTemplatePassesTheGuard() returns (files: Files)
    ensures GoodTables(files) && GoodRegistry(files) && PassesGuard(files) && files.systems.None?
    ensures forall db :: ReseedPlan(db, files).raises
  {
    files := OneRowFiles().(systems := None);
    WithSystems(files);
    forall db ensures ReseedPlan(db, files).raises { GuardedReseedRaisesExactlyWhen(db, files); }
  }

  /** A template that is absent, or stands at another version, and does not fit its columns. */
  lemma OversizedTemplatePassesTheGuard(db: Db, e: SystemCatalog.Entry) returns (files: Files)
    requires !SystemCatalog.Fits(e)
    requires SystemCatalog.IsGlobal(db.system, e.slug) ==> db.system[e.slug].version != e.version
    ensures GoodTables(files) && GoodRegistry(files) && PassesGuard(files) && files.systems == Some([e])
    ensures ReseedPlan(db, files).raises
  {
    files := OneRowFiles().(systems := Some([e]));
    WithSystems(files);
    SystemCatalog.OversizedEntryRaises(db.system, db.nextId, e);
    ReseedDependsOnFilesOnly(db, files);
    SystemCatalog.RaisesExactlyWhen(db.system, db.nextId, [e]);
  }

  /** A system template whose slug a private template holds. */
  lemma PrivateTemplatePassesTheGuard(db: Db, e: SystemCatalog.Entry) returns (files: Files)
    requires e.slug in db.system && db.system[e.slug].org.Some?
    ensures GoodTables(files) && GoodRegistry(files) && PassesGuard(files) && files.systems == Some([e])
    ensures ReseedPlan(db, files).raises
  {
    files := OneRowFiles().(systems := Some([e]));
    WithSystems(files);
    SystemCatalog.PrivateSlugBlocks(db.system, db.nextId, e);
    ReseedDependsOnFilesOnly(db, files);
    SystemCatalog.RaisesExactlyWhen(db.system, db.nextId, [e]);
  }

  lemma WithSystems(files: Files)
    requires files == OneRowFiles().(systems := files.systems)
    ensures GoodTables(files) && GoodRegistry(files) && PassesGuard(files)
  {
    OneRowFilesAreGood();
    forall t: TableName ensures GoodTable(files, t) { assert GoodTable(OneRowFiles(), t); }
    GoodFilesAreNotMissing(files);
  }

  // ---------------------------------------------------------------------------
  // The code: a session that commits, in a process that may die at any commit
  // ---------------------------------------------------------------------------

  datatype Ending = Finished | Raised | Died

  /** A plan carried out with so many commits to live. */
  ghost predicate Ran(before: Db, p: Plan, lives: nat, after: Db, left: nat, ending: Ending) {
    && after == After(before, p, lives)
    && left == (if lives <= |p.commits| then 0 else lives - |p.commits|)
    && ending == (if lives < |p.commits| then Died else if p.raises then Raised else Finished)
  }

  lemma RanThen(
      before: Db, first: Plan, rest: Plan, lives: nat, middle: Db, left: nat, after: Db, end: nat, ending: Ending)
    requires Ran(before, first, lives, middle, left, Finished) && Ran(middle, rest, left, after, end, ending)
    ensures Ran(before, Plan(first.commits + rest.commits, rest.raises), lives, after, end, ending)
  {
    AfterSplits(before, first, rest, lives);
  }

  /** Two states of execution with the same future. */
  ghost predicate EndsAlike(db: Db, p: Plan, lives: nat, db': Db, p': Plan, lives': nat) {
    forall after, left, ending :: Ran(db', p', lives', after, left, ending) ==> Ran(db, p, lives, after, left, ending)
  }

  lemma FirstCommit(db: Db, next: Db, rest: Plan, lives: nat)
    requires lives > 0
    ensures EndsAlike(db, Plan([next] + rest.commits, rest.raises), lives, next, rest, lives - 1)
  {
    assert Ran(db, Plan([next], false), lives, next, lives - 1, Finished);
    forall after, left, ending | Ran(next, rest, lives - 1, after, left, ending)
      ensures Ran(db, Plan([next] + rest.commits, rest.raises), lives, after, left, ending)
    {
      RanThen(db, Plan([next], false), rest, lives, next, lives - 1, after, left, ending);
    }
  }

  lemma StampGrows(items: seq<Item>, version: string, i: nat, to: nat)
    requires i <= to <= |items| && AllGood(items[..i])
    ensures AllGood(items[..to]) <==> AllGood(items[i..to])
    ensures AllGood(items[..to]) ==>
              Stamp(items[..to], version) == Stamp(items[..i], version) + Stamp(items[i..to], version)
  {
    assert items[..to] == items[..i] + items[i..to];
  }

  class Session {
    var committed: Db
    var lives: nat

    method Commit(next: Db) returns (alive: bool)
      modifies this
      ensures alive == (old(lives) > 0)
      ensures if alive then committed == next && lives == old(lives) - 1 else committed == old(committed) && lives == 0
    {
      alive := lives > 0;
      if alive { committed, lives := next, lives - 1; }
    }

    method CommitAll(next: Db) returns (ending: Ending)
      modifies this
      ensures Ran(old(committed), Plan([next], false), old(lives), committed, lives, ending)
    {
      var alive := Commit(next);
      return if alive then Finished else Died;
    }

    /** Build the rows of one batch; false when an entry cannot be digested. */
    method Transform(items: seq<Item>, version: string) returns (rows: seq<Stamped>, ok: bool)
      ensures ok == AllGood(items)
      ensures ok ==> rows == Stamp(items, version)
    {
      rows, ok := [], true;
      for i := 0 to |items|
        invariant AllGood(items[..i]) && rows == Stamp(items[..i], version)
      {
        assert items[i] in items;
        if items[i].Bad? { return [], false; }
        assert forall x :: x in items[..i + 1] ==> x in items[..i] || x == items[i];
        rows := rows + [Stamped(items[i].key, items[i].row, version)];
      }
      assert items[..|items|] == items;
    }

    method SeedObjectivesIfEmpty(files: Files) returns (ending: Ending)
      modifies this
      ensures Ran(old(committed), ObjectivesPlan(old(committed), files), old(lives), committed, lives, ending)
    {
      if files.version.None? { return Raised; }
      if Rows(committed, Objectives) != [] || Objectives !in files.tables { return Finished; }
      if !files.tables[Objectives].Parsed? { return Raised; }
      ending := CommitBatches(files.tables[Objectives].items, files.version.value);
    }

    /** The rows of one more batch beside those already stored; not ok when the database refuses them. */
    method NextBatch(items: seq<Item>, version: string, i: nat, to: nat, rows: seq<Stamped>)
      returns (grown: seq<Stamped>, ok: bool)
      requires i <= to <= |items| && AllGood(items[..i]) && rows == Stamp(items[..i], version)
      ensures ok == Seedable(items[..to], version)
      ensures ok ==> grown == Stamp(items[..to], version)
    {
      var batch;
      batch, ok := Transform(items[i..to], version);
      StampGrows(items, version, i, to);
      grown := rows + batch;
      ok := ok && Storable(grown);
    }

    /** The batched loop. */
    method CommitBatches(items: seq<Item>, version: string) returns (ending: Ending)
      modifies this
      ensures Ran(old(committed), Batches(old(committed), items, version, 0), old(lives), committed, lives, ending)
    {
      var i, rows := 0, [];
      ghost var before, plan := committed, Batches(committed, items, version, 0);
      while i < |items|
        invariant i <= |items| && AllGood(items[..i]) && rows == Stamp(items[..i], version)
        invariant EndsAlike(before, plan, old(lives), committed, Batches(before, items, version, i), lives)
        invariant committed == if i == 0 then before else before.(tables := before.tables[Objectives := rows])
      {
        var to := if i + BATCH < |items| then i + BATCH else |items|;
        var ok;
        rows, ok := NextBatch(items, version, i, to, rows);
        if !ok {
          assert Ran(committed, Plan([], true), lives, committed, lives, Raised);
          return Raised;
        }
        ghost var middle, left := committed, lives;
        ghost var rest := Batches(before, items, version, to);
        var next := committed.(tables := committed.tables[Objectives := rows]);
        assert next == before.(tables := before.tables[Objectives := rows]);
        assert Batches(before, items, version, i) == Plan([next] + rest.commits, rest.raises);
        var alive := Commit(next);
        if !alive {
          assert Ran(middle, Plan([next] + rest.commits, rest.raises), 0, middle, 0, Died);
          return Died;
        }
        FirstCommit(middle, next, rest, left);
        i := to;
      }
      assert Ran(committed, Plan([], false), lives, committed, lives, Finished);
      return Finished;
    }

    /** Controls, domains and evidence. */
    method SeedPlainIfEmpty(files: Files, t: PlainTable) returns (ending: Ending)
      modifies this
      ensures Ran(old(committed), PlainPlan(old(committed), files, t), old(lives), committed, lives, ending)
    {
      if files.version.None? { return Raised; }
      if Rows(committed, t) != [] || t !in files.tables { return Finished; }
      if !files.tables[t].Parsed? { return Raised; }
      var rows, ok := Transform(files.tables[t].items, files.version.value);
      if !ok || !Storable(rows) { return Raised; }
      ending := CommitAll(committed.(tables := committed.tables[t := rows]));
    }

    method SeedThemesIfEmpty(files: Files) returns (ending: Ending)
      modifies this
      ensures Ran(old(committed), ThemesPlan(old(committed), files), old(lives), committed, lives, ending)
    {
      if files.version.None? { return Raised; }
      if Rows(committed, Themes) != [] || Themes !in files.tables { return Finished; }
      if !files.tables[Themes].Parsed? { return Raised; }
      var rows, ok := Transform(files.tables[Themes].items, files.version.value);
      if !ok || !Storable(rows) { return Raised; }
      var controls := ControlsForThemes(files);
      if controls.None? { return Raised; }
      ending := CommitAll(committed.(
        tables := committed.tables[Themes := rows],
        mappedFrom := if rows == [] then committed.mappedFrom else controls.value));
    }

    method SeedRegistryIfEmpty(files: Files) returns (ending: Ending)
      modifies this
      ensures Ran(old(committed), RegistryPlan(old(committed), files), old(lives), committed, lives, ending)
    {
      if files.version.None? { return Raised; }
      var version := files.version.value;
      if !Sendable(version) { return Raised; }
      if !Describes(committed, version) || version in committed.registries { return Finished; }
      var source := RegistrySource(files);
      if source.None? || source.value.Misshapen? { return Finished; }
      if !source.value.Parsed? || !AllGood(source.value.items) || !Stampable(version) { return Raised; }
      ending := CommitAll(committed.(registries := committed.registries[version := RowsOf(source.value.items)]));
    }

    /** The system templates: upsert all listed entries and commit once, or raise without a commit. */
    method SeedSystemCatalog(files: Files) returns (ending: Ending)
      modifies this
      ensures Ran(old(committed), SystemPlan(old(committed), files), old(lives), committed, lives, ending)
    {
      if files.systems.None? { return Raised; }
      if files.systems.value == [] { return Finished; }
      var session := new SystemCatalog.CatalogSession(committed.system, committed.nextId);
      var inserted, updated, skipped, raised := session.Seed(files.systems.value);
      if raised { return Raised; }
      ending := CommitAll(committed.(system := session.table, nextId := session.nextId));
    }

    method SeedOne(files: Files, s: Step) returns (ending: Ending)
      modifies this
      ensures Ran(old(committed), StepPlan(old(committed), files, s), old(lives), committed, lives, ending)
    {
      match s {
        case Plain(t) => ending := SeedPlainIfEmpty(files, t);
        case ObjectiveStep => ending := SeedObjectivesIfEmpty(files);
        case ThemeStep => ending := SeedThemesIfEmpty(files);
        case RegistryStep => ending := SeedRegistryIfEmpty(files);
        case SystemStep => ending := SeedSystemCatalog(files);
      }
    }

    /** seed_catalog_if_empty: one seeder after the other. */
    method SeedCatalogIfEmpty(files: Files, steps: seq<Step>) returns (ending: Ending)
      modifies this
      ensures Ran(old(committed), SeedPlan(old(committed), files, steps), old(lives), committed, lives, ending)
      decreases |steps|
    {
      if steps == [] { return Finished; }
      ending := SeedOne(files, steps[0]);
      if ending.Finished? {
        ghost var middle, left := committed, lives;
        ending := SeedCatalogIfEmpty(files, steps[1..]);
        RanThen(old(committed), StepPlan(old(committed), files, steps[0]), SeedPlan(middle, files, steps[1..]),
                old(lives), middle, left, committed, lives, ending);
      } else {
        DiedEarly(old(committed), files, steps, old(lives));
      }
    }

    method ReseedCatalog(files: Files) returns (ending: Ending)
      modifies this
      ensures Ran(old(committed), ReseedPlan(old(committed), files), old(lives), committed, lives, ending)
    {
      if GuardRaises(files) { return Raised; }
      if !PassesGuard(files) { return Finished; }
      ghost var before := committed;
      ending := CommitAll(Cleared(committed));
      if ending.Finished? {
        ghost var left := lives;
        ending := SeedCatalogIfEmpty(files, ORDER);
        RanThen(before, Plan([Cleared(before)], false), SeedPlan(Cleared(before), files, ORDER),
                old(lives), Cleared(before), left, committed, lives, ending);
      }
    }
  }

  lemma DiedEarly(db: Db, files: Files, steps: seq<Step>, lives: nat)
    requires steps != [] && (StepPlan(db, files, steps[0]).raises || lives < |StepPlan(db, files, steps[0]).commits|)
    ensures var first := StepPlan(db, files, steps[0]);
            forall after, left, ending ::
              Ran(db, first, lives, after, left, ending) ==>
              Ran(db, SeedPlan(db, files, steps), lives, after, left, ending)
  {
    var first := StepPlan(db, files, steps[0]);
    if !first.raises {
      AfterSplits(db, first, SeedPlan(Last(db, first), files, steps[1..]), lives);
    }
  }
}
