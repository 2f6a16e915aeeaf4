/**
 The tenant-isolated part of the schema in backend/models.py: organisations, memberships,
 teams, controls, evidence items, tasks and the rows that connect them.

 A database is one map from row id to row; the constructor of a row is its table.  An
 insert or update commits only if every constraint holds afterwards.  A delete removes
 its row and then fires referential actions one row at a time: a row whose CASCADE parent
 is gone goes too, a task whose team or assignee is gone forgets it (SET NULL).  Firings
 happen in any order.
 */
module Tenancy {
  import opened Options

  type Id = nat

  datatype TeamRole = Primary | Delegate | Ordinary

  datatype Row =
    | Org
    | User
    | BusinessFunction
    | Membership(org: Id, user: Id)
    | Team(org: Id, function_: Id, name: string)
    | Control(org: Id)
    | Evidence(org: Id)
    | TeamMember(team: Id, org: Id, user: Id, role: TeamRole)
    | ControlAssignment(control: Id, team: Id, org: Id, accountable: bool)
    | EvidenceAssignment(evidence: Id, team: Id, org: Id, accountable: bool)
    | Task(evidence: Id, org: Id, owner: Option<Id>, assignee: Option<Id>)

  type Db = map<Id, Row>

  predicate IsOrg(db: Db, i: Id) { i in db && db[i].Org? }
  predicate IsUser(db: Db, i: Id) { i in db && db[i].User? }
  predicate IsFunction(db: Db, i: Id) { i in db && db[i].BusinessFunction? }
  predicate TeamIn(db: Db, i: Id, org: Id) { i in db && db[i].Team? && db[i].org == org }
  predicate ControlIn(db: Db, i: Id, org: Id) { i in db && db[i] == Control(org) }
  predicate EvidenceIn(db: Db, i: Id, org: Id) { i in db && db[i] == Evidence(org) }
  predicate HasMembership(db: Db, org: Id, user: Id) { exists m :: m in db && db[m] == Membership(org, user) }

  /** The CASCADE foreign keys of a row. */
  predicate ParentsExist(db: Db, row: Row) {
    match row
    case Org => true
    case User => true
    case BusinessFunction => true
    case Membership(org, user) => IsOrg(db, org) && IsUser(db, user)
    case Team(org, _, _) => IsOrg(db, org)
    case Control(org) => IsOrg(db, org)
    case Evidence(org) => IsOrg(db, org)
    case TeamMember(team, org, user, _) => TeamIn(db, team, org) && HasMembership(db, org, user)
    case ControlAssignment(control, team, org, _) => ControlIn(db, control, org) && TeamIn(db, team, org)
    case EvidenceAssignment(evidence, team, org, _) => EvidenceIn(db, evidence, org) && TeamIn(db, team, org)
    case Task(evidence, org, _, _) => EvidenceIn(db, evidence, org)
  }

  /** The SET NULL and RESTRICT foreign keys of a row. */
  predicate LinksExist(db: Db, row: Row) {
    match row
    case Team(_, function_, _) => IsFunction(db, function_)
    case Task(_, org, owner, assignee) =>
      (owner.Some? ==> TeamIn(db, owner.value, org)) && (assignee.Some? ==> IsUser(db, assignee.value))
    case _ => true
  }

  /** Two rows that no unique constraint or partial unique index allows side by side. */
  predicate Clash(a: Row, b: Row) {
    match a
    case Membership(_, _) => a == b
    case Team(org, _, name) => b.Team? && b.org == org && b.name == name
    case TeamMember(team, _, user, role) =>
      b.TeamMember? && b.team == team && (b.user == user || (role == b.role && !role.Ordinary?))
    case ControlAssignment(control, team, _, accountable) =>
      b.ControlAssignment? && b.control == control && (b.team == team || (accountable && b.accountable))
    case EvidenceAssignment(evidence, team, _, accountable) =>
      b.EvidenceAssignment? && b.evidence == evidence && (b.team == team || (accountable && b.accountable))
    case _ => false
  }

  /** The entries of a row in the unique constraints and partial unique indexes of the schema. */
  datatype IndexEntry =
    | SeatInOrg(org: Id, user: Id)
    | TeamName(org: Id, name: string)
    | SeatInTeam(team: Id, user: Id)
    | LeadOfTeam(team: Id, role: TeamRole)
    | ControlTeam(control: Id, team: Id)
    | ControlOwner(control: Id)
    | EvidenceTeam(evidence: Id, team: Id)
    | EvidenceOwner(evidence: Id)

  function Entries(row: Row): set<IndexEntry> {
    match row
    case Membership(org, user) => {SeatInOrg(org, user)}
    case Team(org, _, name) => {TeamName(org, name)}
    case TeamMember(team, _, user, Ordinary) => {SeatInTeam(team, user)}
    case TeamMember(team, _, user, role) => {SeatInTeam(team, user), LeadOfTeam(team, role)}
    case ControlAssignment(control, team, _, accountable) =>
      {ControlTeam(control, team)} + if accountable then {ControlOwner(control)} else {}
    case EvidenceAssignment(evidence, team, _, accountable) =>
      {EvidenceTeam(evidence, team)} + if accountable then {EvidenceOwner(evidence)} else {}
    case _ => {}
  }

  /** Rows clash exactly when they share an entry of some index. */
  lemma ClashIsASharedEntry(a: Row, b: Row)
    ensures Clash(a, b) <==> exists e :: e in Entries(a) && e in Entries(b)
  {
    match a {
      case Membership(org, user) => assert SeatInOrg(org, user) in Entries(a);
      case Team(org, _, name) => assert TeamName(org, name) in Entries(a);
      case TeamMember(team, _, user, role) =>
        assert SeatInTeam(team, user) in Entries(a);
        assert LeadOfTeam(team, role) in Entries(a) <==> !role.Ordinary?;
      case ControlAssignment(control, team, _, accountable) =>
        assert ControlTeam(control, team) in Entries(a) && (ControlOwner(control) in Entries(a) <==> accountable);
      case EvidenceAssignment(evidence, team, _, accountable) =>
        assert EvidenceTeam(evidence, team) in Entries(a) && (EvidenceOwner(evidence) in Entries(a) <==> accountable);
      case _ =>
    }
  }

  ghost predicate Constraints(db: Db) {
    && (forall i :: i in db ==> ParentsExist(db, db[i]) && LinksExist(db, db[i]))
    && (forall i, j :: i in db && j in db && i != j ==> !Clash(db[i], db[j]))
  }

  // ---------------------------------------------------------------------------
  // Referential actions, one row at a time
  // ---------------------------------------------------------------------------

  /** SET NULL: a task forgets a team or an assignee that no longer exists. */
  function Relinked(db: Db, row: Row): Row {
    if row.Task? then row.(
      owner := if row.owner.Some? && TeamIn(db, row.owner.value, row.org) then row.owner else None,
      assignee := if row.assignee.Some? && IsUser(db, row.assignee.value) then row.assignee else None)
    else row
  }

  /** The referential action due on one row, if any. */
  function Fire(db: Db, i: Id): Db {
    if i !in db then db
    else if !ParentsExist(db, db[i]) then db - {i}
    else db[i := Relinked(db, db[i])]
  }

  function FireAll(db: Db, ids: seq<Id>): Db {
    if ids == [] then db else FireAll(Fire(db, ids[0]), ids[1..])
  }

  ghost predicate Quiet(db: Db) {
    forall i :: i in db ==> Fire(db, i) == db
  }

  /** All ancestors of a row along CASCADE keys exist, up to its organisation and user. */
  predicate AncestorsExist(db: Db, row: Row) {
    && ParentsExist(db, row)
    && match row
       case TeamMember(_, org, user, _) => IsOrg(db, org) && IsUser(db, user)
       case ControlAssignment(_, _, org, _) => IsOrg(db, org)
       case EvidenceAssignment(_, _, org, _) => IsOrg(db, org)
       case Task(_, org, _, _) => IsOrg(db, org)
       case _ => true
  }

  /** Where every order of firings must end: the rows with all their ancestors, links mended. */
  function Swept(db: Db): Db {
    map i | i in db && AncestorsExist(db, db[i]) :: Relinked(db, db[i])
  }

  lemma FireKeepsAncestors(db: Db, i: Id, row: Row)
    requires i in db && AncestorsExist(db, row)
    ensures !ParentsExist(db, db[i]) ==> AncestorsExist(db - {i}, row)
    ensures AncestorsExist(db[i := Relinked(db, db[i])], row)
  {
    var gone, kept := db - {i}, db[i := Relinked(db, db[i])];
    if row.TeamMember? {
      var m :| m in db && db[m] == Membership(row.org, row.user);
      assert kept[m] == db[m];
      assert m != i ==> gone[m] == db[m];
    }
  }

  lemma FireKeepsFate(db: Db, i: Id, j: Id)
    requires i in db && j in db
    ensures AncestorsExist(db, db[j]) <==> j in Fire(db, i) && AncestorsExist(Fire(db, i), Fire(db, i)[j])
  {
    if AncestorsExist(db, db[j]) {
      FireKeepsAncestors(db, i, db[j]);
    } else if j in Fire(db, i) && AncestorsExist(Fire(db, i), Fire(db, i)[j]) {
      assert db[j].TeamMember? && ParentsExist(Fire(db, i), db[j]) ==> HasMembership(db, db[j].org, db[j].user);
    }
  }

  lemma FireKeepsMending(db: Db, i: Id, j: Id)
    requires i in db && j in db && AncestorsExist(db, db[j]) && j in Fire(db, i)
    ensures Relinked(Fire(db, i), Fire(db, i)[j]) == Relinked(db, db[j])
  {
  }

  /** No firing changes where the firings end. */
  lemma FireKeepsSwept(db: Db, i: Id)
    ensures Swept(Fire(db, i)) == Swept(db)
  {
    if i in db {
      forall j | j in db
        ensures AncestorsExist(db, db[j]) <==> j in Fire(db, i) && AncestorsExist(Fire(db, i), Fire(db, i)[j])
        ensures AncestorsExist(db, db[j]) ==> Relinked(Fire(db, i), Fire(db, i)[j]) == Relinked(db, db[j])
      {
        FireKeepsFate(db, i, j);
        if AncestorsExist(db, db[j]) { FireKeepsMending(db, i, j); }
      }
      assert Fire(db, i).Keys <= db.Keys;
    }
  }

  lemma QuietIsSwept(db: Db)
    requires Quiet(db)
    ensures Swept(db) == db
  {
    forall i | i in db
      ensures AncestorsExist(db, db[i]) && Relinked(db, db[i]) == db[i]
    {
      assert Fire(db, i) == db;
      QuietParents(db, i);
    }
  }

  lemma QuietParents(db: Db, i: Id)
    requires Quiet(db) && i in db
    ensures AncestorsExist(db, db[i])
  {
    assert ParentsExist(db, db[i]);
    match db[i] {
      case TeamMember(team, org, user, _) =>
        assert Fire(db, team) == db;
        var m :| m in db && db[m] == Membership(org, user);
        assert Fire(db, m) == db;
      case ControlAssignment(_, team, _, _) => assert Fire(db, team) == db;
      case EvidenceAssignment(_, team, _, _) => assert Fire(db, team) == db;
      case Task(evidence, _, _, _) => assert Fire(db, evidence) == db;
      case _ =>
    }
  }

  /** Every order of firings that comes to rest comes to rest in the same database. */
  lemma {:induction false} CascadesAreConfluent(db: Db, ids: seq<Id>)
    requires Quiet(FireAll(db, ids))
    ensures FireAll(db, ids) == Swept(db)
  {
    if ids == [] {
      QuietIsSwept(db);
    } else {
      CascadesAreConfluent(Fire(db, ids[0]), ids[1..]);
      FireKeepsSwept(db, ids[0]);
    }
  }

  function OwnedTasks(db: Db): set<Id> {
    set i | i in db && db[i].Task? && db[i].owner.Some?
  }

  function AssignedTasks(db: Db): set<Id> {
    set i | i in db && db[i].Task? && db[i].assignee.Some?
  }

  /** What firings use up: rows, and the two links of a task. */
  function Weight(db: Db): nat {
    |db.Keys| + |OwnedTasks(db)| + |AssignedTasks(db)|
  }

  lemma FiringUsesUp(db: Db, i: Id)
    requires i in db && Fire(db, i) != db
    ensures Weight(Fire(db, i)) < Weight(db)
  {
    var db' := Fire(db, i);
    Subsets(db'.Keys, db.Keys);
    Subsets(OwnedTasks(db'), OwnedTasks(db));
    Subsets(AssignedTasks(db'), AssignedTasks(db));
    if ParentsExist(db, db[i]) {
      assert db[i].Task? && (db'[i].owner != db[i].owner || db'[i].assignee != db[i].assignee);
      if db'[i].owner != db[i].owner { assert i in OwnedTasks(db) && i !in OwnedTasks(db'); }
      else { assert i in AssignedTasks(db) && i !in AssignedTasks(db'); }
    } else {
      assert i !in db'.Keys;
    }
  }

  lemma Subsets(a: set<Id>, b: set<Id>)
    requires a <= b
    ensures |a| <= |b| && (a != b ==> |a| < |b|)
  {
    assert b == a + (b - a);
    assert |b| == |a| + |b - a|;
  }

  /** Each firing in turn changes something. */
  predicate Effective(db: Db, ids: seq<Id>)
    decreases |ids|
  {
    ids != [] ==> Fire(db, ids[0]) != db && Effective(Fire(db, ids[0]), ids[1..])
  }

  /** Every cascade terminates: no sequence of firings that each change something is longer than Weight(db). */
  lemma {:induction false} EveryCascadeTerminates(db: Db, ids: seq<Id>)
    requires Effective(db, ids)
    ensures |ids| <= Weight(db)
    decreases |ids|
  {
    if ids != [] {
      FiringUsesUp(db, ids[0]);
      EveryCascadeTerminates(Fire(db, ids[0]), ids[1..]);
    }
  }

  /** And some order does come to rest within that bound. */
  lemma CascadeTerminates(db: Db) returns (ids: seq<Id>)
    ensures |ids| <= Weight(db) && Quiet(FireAll(db, ids))
    decreases Weight(db)
  {
    if Quiet(db) {
      ids := [];
    } else {
      var i :| i in db && Fire(db, i) != db;
      FiringUsesUp(db, i);
      var rest := CascadeTerminates(Fire(db, i));
      ids := [i] + rest;
    }
  }

  // ---------------------------------------------------------------------------
  // Statements and runs
  // ---------------------------------------------------------------------------

  datatype Statement = Insert(id: Id, row: Row) | Update(id: Id, row: Row) | Delete(id: Id)

  /** RESTRICT: a business function that a team points at cannot be deleted. */
  predicate Restricted(db: Db, i: Id) {
    IsFunction(db, i) && exists t :: t in db && db[t].Team? && db[t].function_ == i
  }

  ghost function Execute(db: Db, s: Statement): Db {
    match s
    case Insert(i, row) => if i !in db && Constraints(db[i := row]) then db[i := row] else db
    case Update(i, row) =>
      if i in db && SameTable(db[i], row) && Constraints(db[i := row]) then db[i := row] else db
    case Delete(i) => if i !in db || Restricted(db, i) then db else Swept(db - {i})
  }

  predicate SameTable(a: Row, b: Row) {
    match a
    case Org => b.Org?
    case User => b.User?
    case BusinessFunction => b.BusinessFunction?
    case Membership(_, _) => b.Membership?
    case Team(_, _, _) => b.Team?
    case Control(_) => b.Control?
    case Evidence(_) => b.Evidence?
    case TeamMember(_, _, _, _) => b.TeamMember?
    case ControlAssignment(_, _, _, _) => b.ControlAssignment?
    case EvidenceAssignment(_, _, _, _) => b.EvidenceAssignment?
    case Task(_, _, _, _) => b.Task?
  }

  ghost function Run(db: Db, statements: seq<Statement>): Db
    decreases |statements|
  {
    if statements == [] then db else Run(Execute(db, statements[0]), statements[1..])
  }

  lemma SweptAncestors(db: Db, row: Row)
    requires AncestorsExist(db, row)
    ensures ParentsExist(Swept(db), row)
  {
    if row.TeamMember? {
      var m :| m in db && db[m] == Membership(row.org, row.user);
      assert Swept(db)[m] == db[m];
    }
  }

  /** A delete that is not restricted always commits: what its cascade leaves meets every constraint. */
  lemma CascadeKeepsConstraints(db: Db, i: Id)
    requires Constraints(db) && i in db && !Restricted(db, i)
    ensures Constraints(Swept(db - {i}))
  {
    var rest := db - {i};
    var db' := Swept(rest);
    forall j | j in db'
      ensures ParentsExist(db', db'[j]) && LinksExist(db', db'[j])
    {
      SweptAncestors(rest, rest[j]);
      assert LinksExist(db, db[j]);
    }
    forall j, k | j in db' && k in db' && j != k
      ensures !Clash(db'[j], db'[k])
    {
      assert !Clash(db[j], db[k]);
    }
  }

  lemma ExecuteKeepsConstraints(db: Db, s: Statement)
    requires Constraints(db)
    ensures Constraints(Execute(db, s))
  {
    if s.Delete? && s.id in db && !Restricted(db, s.id) { CascadeKeepsConstraints(db, s.id); }
  }

  lemma {:induction false} RunKeepsConstraints(db: Db, statements: seq<Statement>)
    requires Constraints(db)
    ensures Constraints(Run(db, statements))
    decreases |statements|
  {
    if statements != [] {
      ExecuteKeepsConstraints(db, statements[0]);
      RunKeepsConstraints(Execute(db, statements[0]), statements[1..]);
    }
  }

  // ---------------------------------------------------------------------------
  // Tenancy
  // ---------------------------------------------------------------------------

  /** The organisations of a row's parents agree, whatever its own organisation column says. */
  predicate ParentsShareTenant(db: Db, row: Row) {
    match row
    case TeamMember(team, _, user, _) =>
      team in db && db[team].Team? && HasMembership(db, db[team].org, user)
    case ControlAssignment(control, team, _, _) =>
      control in db && db[control].Control? && team in db && db[team].Team? && db[control].org == db[team].org
    case EvidenceAssignment(evidence, team, _, _) =>
      evidence in db && db[evidence].Evidence? && team in db && db[team].Team? && db[evidence].org == db[team].org
    case Task(evidence, _, owner, _) =>
      && evidence in db && db[evidence].Evidence?
      && (owner.Some? ==> owner.value in db && db[owner.value].Team? && db[owner.value].org == db[evidence].org)
    case _ => true
  }

  /** Both rows make a team accountable for the same control or evidence item. */
  predicate BothAccountable(a: Row, b: Row) {
    || (a.ControlAssignment? && b.ControlAssignment? && a.control == b.control && a.accountable && b.accountable)
    || (a.EvidenceAssignment? && b.EvidenceAssignment? && a.evidence == b.evidence && a.accountable && b.accountable)
  }

  /** In every reachable database no row joins two tenants, and nothing has two accountable teams. */
  lemma TenantsNeverMix(statements: seq<Statement>, i: Id, j: Id)
    requires i in Run(map[], statements) && j in Run(map[], statements)
    ensures ParentsShareTenant(Run(map[], statements), Run(map[], statements)[i])
    ensures BothAccountable(Run(map[], statements)[i], Run(map[], statements)[j]) ==> i == j
  {
    RunKeepsConstraints(map[], statements);
    var db := Run(map[], statements);
    assert ParentsExist(db, db[i]) && LinksExist(db, db[i]);
    assert i != j ==> !Clash(db[i], db[j]);
  }

  /** The organisation a row belongs to; users and business functions are shared. */
  predicate OwnedBy(db: Db, i: Id, org: Id) {
    i in db && match db[i]
               case Org => i == org
               case User => false
               case BusinessFunction => false
               case _ => db[i].org == org
  }

  /** Row i is an ancestor of the row along CASCADE keys. */
  predicate DescendsFrom(db: Db, row: Row, i: Id) {
    match row
    case Membership(org, user) => i == org || i == user
    case Team(org, _, _) => i == org
    case Control(org) => i == org
    case Evidence(org) => i == org
    case TeamMember(team, org, user, _) =>
      i == team || i == org || i == user || (i in db && db[i] == Membership(org, user))
    case ControlAssignment(control, team, org, _) => i == control || i == team || i == org
    case EvidenceAssignment(evidence, team, org, _) => i == evidence || i == team || i == org
    case Task(evidence, org, _, _) => i == evidence || i == org
    case _ => false
  }

  /** The row once i is gone: a task forgets i as its team or assignee. */
  function Forgetting(row: Row, i: Id): Row {
    if row.Task? then row.(
      owner := if row.owner == Some(i) then None else row.owner,
      assignee := if row.assignee == Some(i) then None else row.assignee)
    else row
  }

  lemma GrandparentsExist(db: Db, row: Row)
    requires Constraints(db) && ParentsExist(db, row)
    ensures AncestorsExist(db, row)
  {
    match row {
      case TeamMember(_, org, user, _) =>
        var m :| m in db && db[m] == Membership(org, user);
        assert ParentsExist(db, db[m]);
      case ControlAssignment(_, team, _, _) => assert ParentsExist(db, db[team]);
      case EvidenceAssignment(_, team, _, _) => assert ParentsExist(db, db[team]);
      case Task(evidence, _, _, _) => assert ParentsExist(db, db[evidence]);
      case _ =>
    }
  }

  lemma DescendantsLoseAnAncestor(db: Db, i: Id, j: Id)
    requires Constraints(db) && i in db && j in db && j != i
    ensures AncestorsExist(db - {i}, db[j]) <==> !DescendsFrom(db, db[j], i)
  {
    var rest := db - {i};
    GrandparentsExist(db, db[j]);
    if db[j].TeamMember? {
      var m :| m in db && db[m] == Membership(db[j].org, db[j].user);
      if m != i {
        assert rest[m] == db[m];
        assert !Clash(db[m], db[i]);
      } else {
        assert forall k :: k in db && k != i ==> !Clash(db[k], db[i]);
      }
    }
  }

  /** A delete removes exactly the row's descendants, and mends exactly the tasks that point at it. */
  lemma DeleteIsExact(db: Db, i: Id, j: Id)
    requires Constraints(db) && i in db && !Restricted(db, i) && j in db && j != i
    ensures var db' := Execute(db, Delete(i));
            if DescendsFrom(db, db[j], i) then j !in db' else j in db' && db'[j] == Forgetting(db[j], i)
  {
    DescendantsLoseAnAncestor(db, i, j);
    assert LinksExist(db, db[j]);
  }

  /** No statement turns a row into one of another table. */
  lemma RowsStayInTheirTable(db: Db, s: Statement, j: Id)
    requires j in db && j in Execute(db, s)
    ensures SameTable(db[j], Execute(db, s)[j]) && SameTable(Execute(db, s)[j], db[j])
  {
  }

  /** Deleting an organisation, or anything inside one, leaves every row of every other organisation as it was. */
  lemma DeletesStayInsideTheTenant(db: Db, i: Id, org: Id, j: Id, other: Id)
    requires Constraints(db) && OwnedBy(db, i, org) && OwnedBy(db, j, other) && org != other
    ensures j in Execute(db, Delete(i)) && Execute(db, Delete(i))[j] == db[j]
  {
    DeleteIsExact(db, i, j);
    assert ParentsExist(db, db[j]) && LinksExist(db, db[j]);
  }

  /** Deleting an organisation leaves nothing of it behind. */
  lemma OrgDeleteErasesTheTenant(db: Db, org: Id, j: Id)
    requires Constraints(db) && IsOrg(db, org)
    ensures !OwnedBy(Execute(db, Delete(org)), j, org)
  {
    if j in db && j != org { DeleteIsExact(db, org, j); }
  }

  /** Revoking a membership takes the person off that organisation's teams in the same statement, and nothing else. */
  lemma RevokedMembershipLeavesTeams(db: Db, m: Id, j: Id)
    requires Constraints(db) && m in db && db[m].Membership? && j in db && j != m
    ensures var db' := Execute(db, Delete(m));
            if db[j].TeamMember? && db[j].org == db[m].org && db[j].user == db[m].user then j !in db'
            else j in db' && db'[j] == db[j]
  {
    DeleteIsExact(db, m, j);
    assert ParentsExist(db, db[j]) && LinksExist(db, db[j]);
  }

  /** Deleting a team takes exactly its member and assignment rows; its tasks go back to inheriting. */
  lemma TeamDeleteIsExact(db: Db, team: Id, j: Id)
    requires Constraints(db) && team in db && db[team].Team? && j in db && j != team
    ensures var db' := Execute(db, Delete(team));
            if (db[j].TeamMember? || db[j].ControlAssignment? || db[j].EvidenceAssignment?) && db[j].team == team
            then j !in db'
            else
              && j in db'
              && db'[j] == if db[j].Task? && db[j].owner == Some(team) then db[j].(owner := None) else db[j]
  {
    DeleteIsExact(db, team, j);
    assert ParentsExist(db, db[j]) && LinksExist(db, db[j]);
  }

  /** Deleting a user takes their memberships and team seats everywhere; tasks they were assigned forget them. */
  lemma UserDeleteIsExact(db: Db, user: Id, j: Id)
    requires Constraints(db) && IsUser(db, user) && j in db && j != user
    ensures var db' := Execute(db, Delete(user));
            if (db[j].Membership? || db[j].TeamMember?) && db[j].user == user then j !in db'
            else
              && j in db'
              && db'[j] == if db[j].Task? && db[j].assignee == Some(user) then db[j].(assignee := None) else db[j]
  {
    DeleteIsExact(db, user, j);
    assert ParentsExist(db, db[j]) && LinksExist(db, db[j]);
  }

  /** A business function cannot be deleted while a team has it, and goes alone when none does. */
  lemma FunctionDeleteIsExact(db: Db, i: Id)
    requires Constraints(db) && i in db && db[i].BusinessFunction?
    ensures Execute(db, Delete(i))
         == if exists t :: t in db && db[t].Team? && db[t].function_ == i then db else db - {i}
  {
    if !Restricted(db, i) {
      var db' := Execute(db, Delete(i));
      forall j | j in db && j != i
        ensures j in db' && db'[j] == db[j]
      {
        DeleteIsExact(db, i, j);
        assert ParentsExist(db, db[j]) && LinksExist(db, db[j]);
      }
    }
  }

  /** No other row refers to a task. */
  lemma NothingNeedsATask(db: Db, i: Id, row: Row, other: Row)
    requires i in db && db[i].Task? && row.Task?
    ensures ParentsExist(db, other) ==> ParentsExist(db[i := row], other)
    ensures LinksExist(db, other) <==> LinksExist(db[i := row], other)
  {
    if other.TeamMember? && HasMembership(db, other.org, other.user) {
      var m :| m in db && db[m] == Membership(other.org, other.user);
      assert db[i := row][m] == db[m];
    }
  }

  /** A task can be handed to a team exactly when that is a team of its own organisation. */
  lemma TaskIsHandedOverExactlyWhen(db: Db, i: Id, team: Id)
    requires Constraints(db) && i in db && db[i].Task?
    ensures Execute(db, Update(i, db[i].(owner := Some(team))))
         == if TeamIn(db, team, db[i].org) then db[i := db[i].(owner := Some(team))] else db
  {
    var row := db[i].(owner := Some(team));
    var db' := db[i := row];
    assert ParentsExist(db, row) && (LinksExist(db, row) <==> TeamIn(db, team, row.org)) by {
      assert ParentsExist(db, db[i]) && LinksExist(db, db[i]);
    }
    NothingNeedsATask(db, i, row, row);
    if TeamIn(db, team, row.org) {
      forall j | j in db'
        ensures ParentsExist(db', db'[j]) && LinksExist(db', db'[j])
      {
        NothingNeedsATask(db, i, row, db'[j]);
      }
      assert Constraints(db');
    } else {
      assert !LinksExist(db', db'[i]);
    }
  }

  /** The accountable teams of an evidence item: at most one, by uq_evidence_accountable_team. */
  function AccountableTeams(db: Db, evidence: Id): set<Id> {
    set a | a in db && db[a].EvidenceAssignment? && db[a].evidence == evidence && db[a].accountable :: db[a].team
  }

  /** Who answers for a task: its own team, or else whoever is accountable for its evidence item. */
  function AnsweringTeams(db: Db, task: Row): set<Id>
    requires task.Task?
  {
    if task.owner.Some? then {task.owner.value} else AccountableTeams(db, task.evidence)
  }

  /** Its own team; else the one team that is accountable for its evidence item, if there is one. */
  lemma OneTeamAnswers(db: Db, task: Row, a: Id)
    requires Constraints(db) && task.Task?
    ensures task.owner.Some? ==> AnsweringTeams(db, task) == {task.owner.value}
    ensures task.owner.None? && AnswersFor(db, a, task.evidence) ==> AnsweringTeams(db, task) == {db[a].team}
    ensures task.owner.None? && (forall b :: !AnswersFor(db, b, task.evidence)) ==> AnsweringTeams(db, task) == {}
  {
    assert forall b | b in db && db[b].EvidenceAssignment? && db[b].evidence == task.evidence && db[b].accountable ::
        AnswersFor(db, b, task.evidence);
  }

  predicate AnswersFor(db: Db, a: Id, evidence: Id) {
    a in db && db[a].EvidenceAssignment? && db[a].evidence == evidence && db[a].accountable
  }

  /** After a team is deleted, a task it answered for falls to its evidence item's team, if that is another. */
  lemma DeletedTeamHandsTasksBack(db: Db, team: Id, j: Id)
    requires Constraints(db) && team in db && db[team].Team? && j in db && db[j].Task?
    ensures var db' := Execute(db, Delete(team));
            && j in db' && db'[j].Task?
            && AnsweringTeams(db', db'[j]) ==
                 (if db[j].owner == Some(team) then AccountableTeams(db, db[j].evidence)
                  else AnsweringTeams(db, db[j])) - {team}
  {
    var db' := Execute(db, Delete(team));
    TeamDeleteIsExact(db, team, j);
    AccountableAfterTeamDelete(db, team, db[j].evidence);
  }

  lemma AccountableAfterTeamDelete(db: Db, team: Id, evidence: Id)
    requires Constraints(db) && team in db && db[team].Team?
    ensures AccountableTeams(Execute(db, Delete(team)), evidence) == AccountableTeams(db, evidence) - {team}
  {
    var db' := Execute(db, Delete(team));
    forall a | a in db && db[a].EvidenceAssignment?
      ensures if db[a].team == team then a !in db' else a in db' && db'[a] == db[a]
    {
      TeamDeleteIsExact(db, team, a);
    }
    assert forall a :: a in db' ==> a in db && SameTable(db[a], db'[a]);
  }

  // ---------------------------------------------------------------------------
  // Both composite keys are needed
  // ---------------------------------------------------------------------------

  /** Only the key towards the team is composite; the other parent is merely known to exist. */
  predicate TeamKeyOnly(db: Db, row: Row) {
    match row
    case TeamMember(team, org, user, _) => TeamIn(db, team, org) && IsUser(db, user)
    case ControlAssignment(control, team, org, _) => control in db && db[control].Control? && TeamIn(db, team, org)
    case EvidenceAssignment(evidence, team, org, _) => evidence in db && db[evidence].Evidence? && TeamIn(db, team, org)
    case Task(evidence, org, owner, _) =>
      evidence in db && db[evidence].Evidence? && owner.Some? && TeamIn(db, owner.value, org)
    case _ => false
  }

  /** Only the key towards the other parent is composite; the team is merely known to exist. */
  predicate ParentKeyOnly(db: Db, row: Row) {
    match row
    case TeamMember(team, org, user, _) => team in db && db[team].Team? && HasMembership(db, org, user)
    case ControlAssignment(control, team, org, _) => ControlIn(db, control, org) && team in db && db[team].Team?
    case EvidenceAssignment(evidence, team, org, _) => EvidenceIn(db, evidence, org) && team in db && db[team].Team?
    case Task(evidence, org, owner, _) =>
      EvidenceIn(db, evidence, org) && owner.Some? && owner.value in db && db[owner.value].Team?
    case _ => false
  }

  /** The rows that join a team to something else. */
  predicate Joins(row: Row) {
    row.TeamMember? || row.ControlAssignment? || row.EvidenceAssignment? || (row.Task? && row.owner.Some?)
  }

  /** One composite key of a joining row: the one towards the team, or the other. */
  predicate OneKey(db: Db, row: Row, towardsTeam: bool) {
    if towardsTeam then TeamKeyOnly(db, row) else ParentKeyOnly(db, row)
  }

  /** The constraints of the schema with one composite key of every joining row dropped. */
  ghost predicate WeakConstraints(db: Db, towardsTeam: bool) {
    && (forall i :: i in db ==>
          if Joins(db[i]) then OneKey(db, db[i], towardsTeam) else ParentsExist(db, db[i]) && LinksExist(db, db[i]))
    && (forall i, j :: i in db && j in db && i != j ==> !Clash(db[i], db[j]))
  }

  /**
   With either composite key alone, any team and any control, evidence item or member of
   another tenant can be joined in one row.
   */
  lemma HalfTheKeysMixTenants(db: Db, team: Id, control: Id, evidence: Id, org: Id, user: Id)
    requires team in db && db[team].Team?
    requires control in db && db[control].Control? && db[control].org != db[team].org
    requires evidence in db && db[evidence].Evidence? && db[evidence].org != db[team].org
    requires IsUser(db, user) && HasMembership(db, org, user) && !HasMembership(db, db[team].org, user)
    ensures forall row | row in JoinedByTeamKey(db, team, control, evidence, user) ::
              TeamKeyOnly(db, row) && !ParentsShareTenant(db, row)
    ensures forall row | row in JoinedByOtherKey(db, team, control, evidence, org, user) ::
              ParentKeyOnly(db, row) && !ParentsShareTenant(db, row)
  {
  }

  function JoinedByTeamKey(db: Db, team: Id, control: Id, evidence: Id, user: Id): seq<Row>
    requires team in db && db[team].Team?
  {
    [TeamMember(team, db[team].org, user, Ordinary), ControlAssignment(control, team, db[team].org, true),
     EvidenceAssignment(evidence, team, db[team].org, true), Task(evidence, db[team].org, Some(team), None)]
  }

  function JoinedByOtherKey(db: Db, team: Id, control: Id, evidence: Id, org: Id, user: Id): seq<Row>
    requires control in db && db[control].Control? && evidence in db && db[evidence].Evidence?
  {
    [TeamMember(team, org, user, Ordinary), ControlAssignment(control, team, db[control].org, true),
     EvidenceAssignment(evidence, team, db[evidence].org, true), Task(evidence, db[evidence].org, Some(team), None)]
  }

  /** Nothing in the database and the row exclude each other. */
  predicate NoClash(db: Db, row: Row) {
    forall j :: j in db ==> !Clash(row, db[j]) && !Clash(db[j], row)
  }

  lemma ParentsStay(db: Db, id: Id, row: Row, other: Row)
    requires id !in db
    ensures ParentsExist(db, other) ==> ParentsExist(db[id := row], other)
    ensures LinksExist(db, other) ==> LinksExist(db[id := row], other)
    ensures ParentKeyOnly(db, other) ==> ParentKeyOnly(db[id := row], other)
  {
    if other.TeamMember? && HasMembership(db, other.org, other.user) {
      var m :| m in db && db[m] == Membership(other.org, other.user);
      assert db[id := row][m] == db[m];
    }
  }

  lemma FreshRowKeepsConstraints(db: Db, id: Id, row: Row)
    requires Constraints(db) && id !in db && ParentsExist(db, row) && LinksExist(db, row) && NoClash(db, row)
    ensures Constraints(db[id := row])
  {
    var db' := db[id := row];
    forall i | i in db'
      ensures ParentsExist(db', db'[i]) && LinksExist(db', db'[i])
    {
      ParentsStay(db, id, row, db'[i]);
    }
  }

  /** A joining row for which one key suffices can be added where nothing clashes, whatever tenants it joins. */
  lemma FreshJoinKeepsWeakConstraints(db: Db, id: Id, row: Row, towardsTeam: bool)
    requires Constraints(db) && JoinsNothing(db)
    requires id !in db && Joins(row) && OneKey(db, row, towardsTeam)
    ensures WeakConstraints(db[id := row], towardsTeam)
  {
    var db' := db[id := row];
    forall i | i in db'
      ensures if Joins(db'[i]) then OneKey(db', db'[i], towardsTeam)
              else ParentsExist(db', db'[i]) && LinksExist(db', db'[i])
    {
      ParentsStay(db, id, row, db'[i]);
    }
  }

  predicate JoinsNothing(db: Db) {
    forall i :: i in db ==> !Joins(db[i])
  }

  const TWO_ORGS: Db := map[1 := Org, 2 := Org]

  const STAFFED: Db := TWO_ORGS[3 := BusinessFunction][4 := User][8 := Membership(2, 4)]

  /** Two tenants: a team in the one; a control, an evidence item and a member in the other. */
  const TWO_TENANTS: Db := STAFFED[5 := Team(1, 3, "a")][6 := Control(2)][7 := Evidence(2)]

  lemma StaffedExists()
    ensures Constraints(STAFFED) && JoinsNothing(STAFFED)
    ensures HasMembership(STAFFED, 2, 4) && !HasMembership(STAFFED, 1, 4)
  {
    assert STAFFED[8] == Membership(2, 4);
    var _ := StaffIsReached();
  }

  lemma OtherRowsAreNoMemberships(db: Db, id: Id, row: Row, org: Id, user: Id)
    requires id !in db && !row.Membership?
    ensures HasMembership(db[id := row], org, user) <==> HasMembership(db, org, user)
  {
    var db' := db[id := row];
    if m :| m in db && db[m] == Membership(org, user) { assert db'[m] == db[m]; }
    if m :| m in db' && db'[m] == Membership(org, user) { assert db[m] == Membership(org, user); }
  }

  /** A team of one organisation and a control and an evidence item of another can always be added. */
  lemma CanAddTeamControlAndEvidence(db: Db, name: string)
    requires Constraints(db) && IsOrg(db, 1) && IsOrg(db, 2) && IsFunction(db, 3)
    requires 5 !in db && 6 !in db && 7 !in db && (forall i :: i in db ==> !db[i].Team?) && JoinsNothing(db)
    ensures var db' := db[5 := Team(1, 3, name)][6 := Control(2)][7 := Evidence(2)];
            && Constraints(db') && JoinsNothing(db')
            && (HasMembership(db', 2, 4) <==> HasMembership(db, 2, 4))
            && (HasMembership(db', 1, 4) <==> HasMembership(db, 1, 4))
  {
    ThreeMoreRows(db, Team(1, 3, name), Control(2), Evidence(2), 2);
    ThreeMoreRows(db, Team(1, 3, name), Control(2), Evidence(2), 1);
    FreshRowKeepsConstraints(db, 5, Team(1, 3, name));
    var withTeam := db[5 := Team(1, 3, name)];
    FreshRowKeepsConstraints(withTeam, 6, Control(2));
    FreshRowKeepsConstraints(withTeam[6 := Control(2)], 7, Evidence(2));
  }

  /** A database of two tenants that meets every constraint of the schema and joins nothing yet. */
  lemma TwoTenantsExist()
    ensures Constraints(TWO_TENANTS) && JoinsNothing(TWO_TENANTS)
    ensures HasMembership(TWO_TENANTS, 2, 4) && !HasMembership(TWO_TENANTS, 1, 4)
  {
    StaffedExists();
    CanAddTeamControlAndEvidence(STAFFED, "a");
  }

  /** One more fresh row that meets the constraints is one more insert. */
  lemma InsertIsReached(before: seq<Statement>, db: Db, id: Id, row: Row) returns (statements: seq<Statement>)
    requires Run(map[], before) == db && Constraints(db)
    requires id !in db && ParentsExist(db, row) && LinksExist(db, row) && NoClash(db, row)
    ensures Run(map[], statements) == db[id := row] && Constraints(db[id := row])
  {
    FreshRowKeepsConstraints(db, id, row);
    statements := before + [Insert(id, row)];
    RunSplits(map[], before, [Insert(id, row)]);
    assert [Insert(id, row)][1..] == [];
    assert Run(db, [Insert(id, row)]) == Run(Execute(db, Insert(id, row)), []);
  }

  lemma StaffIsReached() returns (statements: seq<Statement>)
    ensures Run(map[], statements) == STAFFED && Constraints(STAFFED)
  {
    assert Run(map[], []) == map[];
    statements := InsertIsReached([], map[], 1, Org);
    statements := InsertIsReached(statements, map[1 := Org], 2, Org);
    assert map[1 := Org][2 := Org] == TWO_ORGS;
    statements := InsertIsReached(statements, TWO_ORGS, 3, BusinessFunction);
    statements := InsertIsReached(statements, TWO_ORGS[3 := BusinessFunction], 4, User);
    statements := InsertIsReached(statements, TWO_ORGS[3 := BusinessFunction][4 := User], 8, Membership(2, 4));
  }

  lemma TeamControlAndEvidenceAreReached(before: seq<Statement>, db: Db, name: string)
    returns (statements: seq<Statement>)
    requires Run(map[], before) == db && Constraints(db)
    requires IsOrg(db, 1) && IsOrg(db, 2) && IsFunction(db, 3)
    requires 5 !in db && 6 !in db && 7 !in db && (forall i :: i in db ==> !db[i].Team?)
    ensures Run(map[], statements) == db[5 := Team(1, 3, name)][6 := Control(2)][7 := Evidence(2)]
  {
    statements := InsertIsReached(before, db, 5, Team(1, 3, name));
    var withTeam := db[5 := Team(1, 3, name)];
    statements := InsertIsReached(statements, withTeam, 6, Control(2));
    statements := InsertIsReached(statements, withTeam[6 := Control(2)], 7, Evidence(2));
  }

  /** It is reached by inserts from the empty database. */
  lemma TwoTenantsAreReachable() returns (statements: seq<Statement>)
    ensures Run(map[], statements) == TWO_TENANTS
  {
    statements := StaffIsReached();
    statements := TeamControlAndEvidenceAreReached(statements, STAFFED, "a");
  }

  lemma {:induction false} RunSplits(db: Db, before: seq<Statement>, after: seq<Statement>)
    ensures Run(db, before + after) == Run(Run(db, before), after)
    decreases |before|
  {
    if before == [] {
      assert before + after == after;
    } else {
      assert (before + after)[1..] == before[1..] + after;
      RunSplits(Execute(db, before[0]), before[1..], after);
    }
  }

  lemma ThreeMoreRows(db: Db, a: Row, b: Row, c: Row, org: Id)
    requires 5 !in db && 6 !in db && 7 !in db && !a.Membership? && !b.Membership? && !c.Membership?
    ensures HasMembership(db[5 := a][6 := b][7 := c], org, 4) <==> HasMembership(db, org, 4)
  {
    OtherRowsAreNoMemberships(db, 5, a, org, 4);
    OtherRowsAreNoMemberships(db[5 := a], 6, b, org, 4);
    OtherRowsAreNoMemberships(db[5 := a][6 := b], 7, c, org, 4);
  }

  /** Adding a row changes no membership and no tenant of its parents. */
  lemma MixtureStays(db: Db, id: Id, row: Row)
    requires id !in db && Joins(row) && !ParentsShareTenant(db, row)
    requires Constraints(db) && (OneKey(db, row, true) || OneKey(db, row, false))
    ensures !ParentsShareTenant(db[id := row], row)
  {
  }

  /** With one key dropped, any database that joins nothing yet takes in a row that mixes tenants. */
  lemma MixedRowsCanBeAdded(
      db: Db, team: Id, control: Id, evidence: Id, org: Id, user: Id, id: Id, row: Row, towardsTeam: bool)
    requires Constraints(db) && JoinsNothing(db) && id !in db
    requires team in db && db[team].Team?
    requires control in db && db[control].Control? && db[control].org != db[team].org
    requires evidence in db && db[evidence].Evidence? && db[evidence].org != db[team].org
    requires IsUser(db, user) && HasMembership(db, org, user) && !HasMembership(db, db[team].org, user)
    requires row in (if towardsTeam then JoinedByTeamKey(db, team, control, evidence, user)
                     else JoinedByOtherKey(db, team, control, evidence, org, user))
    ensures WeakConstraints(db[id := row], towardsTeam) && !ParentsShareTenant(db[id := row], row)
  {
    HalfTheKeysMixTenants(db, team, control, evidence, org, user);
    FreshJoinKeepsWeakConstraints(db, id, row, towardsTeam);
    MixtureStays(db, id, row);
  }

  /**
   So with either key dropped each kind of joining row can mix two tenants in a database that meets
   every remaining constraint.
   */
  lemma DroppedKeysLetTenantsMix(row: Row, towardsTeam: bool)
    requires row in (if towardsTeam then JoinedByTeamKey(TWO_TENANTS, 5, 6, 7, 4)
                     else JoinedByOtherKey(TWO_TENANTS, 5, 6, 7, 2, 4))
    ensures WeakConstraints(TWO_TENANTS[10 := row], towardsTeam)
    ensures !ParentsShareTenant(TWO_TENANTS[10 := row], row)
  {
    TwoTenantsExist();
    MixedRowsCanBeAdded(TWO_TENANTS, 5, 6, 7, 2, 4, 10, row, towardsTeam);
  }

  /** The schema is both halves together, and that assignees exist. */
  lemma TheSchemaIsBothHalves(db: Db)
    ensures Constraints(db) <==>
            && WeakConstraints(db, true) && WeakConstraints(db, false)
            && forall i :: i in db && db[i].Task? && db[i].assignee.Some? ==> IsUser(db, db[i].assignee.value)
  {
    if Constraints(db) {
      forall i | i in db && Joins(db[i]) ensures TeamKeyOnly(db, db[i]) && ParentKeyOnly(db, db[i]) {
        assert ParentsExist(db, db[i]) && LinksExist(db, db[i]);
        if db[i].TeamMember? {
          var m :| m in db && db[m] == Membership(db[i].org, db[i].user);
          assert ParentsExist(db, db[m]);
        }
      }
    } else if WeakConstraints(db, true) && WeakConstraints(db, false) {
      assert forall i :: i in db && Joins(db[i]) ==> OneKey(db, db[i], true) && OneKey(db, db[i], false);
    }
  }

  /** Together the two keys are enough, in any database. */
  lemma BothKeysKeepTenants(db: Db, row: Row)
    requires TeamKeyOnly(db, row) && ParentKeyOnly(db, row)
    ensures ParentsShareTenant(db, row)
  {
  }
}
