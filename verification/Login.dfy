/**
 Sign-in against the users table: _persist_oidc_user and seed_bootstrap_admin of backend/auth.py.

 A login looks rows up in a fixed order, decides on one update, one insert, a
 failure or a refusal, and commits under the two constraints of the table.  A
 lookup that meets two rows raises, as scalar_one_or_none does, and a unique
 constraint treats NULL issuers as distinct, as Postgres does.  The invite
 services, the registration switch and database failures are inputs.
 */
module Login {
  import opened Options

  type UserId = nat

  datatype Row = Row(
    sub: string, issuer: Option<string>, email: string, name: Option<string>,
    lastLogin: Option<nat>, admin: bool)

  type Table = map<UserId, Row>

  datatype InviteLookup = ValidInvite | NoValidInvite | TwoInvites

  datatype Fault = NoFault | BeforeCommit | AfterCommit

  datatype Request = Request(
    sub: string, issuer: string, email: Option<string>, name: Option<string>, verified: bool,
    now: nat, freshId: UserId, invite: InviteLookup, openRegistration: bool, fault: Fault)

  /** What the lookups lead to.  An update remembers the row as it was loaded. */
  datatype Plan = Fail | Refuse | Update(id: UserId, loaded: Row) | Insert

  datatype Outcome = Persisted(id: UserId) | Transient | Refused

  datatype Result = Result(table: Table, outcome: Outcome)

  const PENDING := "pending:"

  predicate IsPending(sub: string) {
    PENDING <= sub
  }

  predicate UniqueEmail(t: Table) {
    forall i, j :: i in t && j in t && t[i].email == t[j].email ==> i == j
  }

  predicate SameIdentity(a: Row, b: Row) {
    a.issuer.Some? && a.issuer == b.issuer && a.sub == b.sub
  }

  predicate UniqueIdentity(t: Table) {
    forall i, j :: i in t && j in t && SameIdentity(t[i], t[j]) ==> i == j
  }

  predicate Constraints(t: Table) {
    UniqueEmail(t) && UniqueIdentity(t)
  }

  function ByIdentity(t: Table, issuer: string, sub: string): set<UserId> {
    set i | i in t && t[i].issuer == Some(issuer) && t[i].sub == sub
  }

  function ByLegacySubject(t: Table, sub: string): set<UserId> {
    set i | i in t && t[i].sub == sub && t[i].issuer.None?
  }

  function ByLinkedEmail(t: Table, email: string): set<UserId> {
    set i | i in t && t[i].email == email && !IsPending(t[i].sub)
  }

  function ByPlaceholder(t: Table, email: string): set<UserId> {
    set i | i in t && t[i].sub == PENDING + email
  }

  predicate UsableEmail(r: Request) {
    r.verified && r.email.Some? && r.email.value != ""
  }

  ghost function TheOne(s: set<UserId>): UserId
    requires |s| == 1
  {
    var i :| i in s; i
  }

  /** A lookup that found rows: one row is updated, more than one raises. */
  ghost function Found(t: Table, s: set<UserId>): Plan
    requires s != {} && s <= t.Keys
  {
    if |s| == 1 then Update(TheOne(s), t[TheOne(s)]) else Fail
  }

  ghost function Decide(t: Table, r: Request): Plan {
    if ByIdentity(t, r.issuer, r.sub) != {} then Found(t, ByIdentity(t, r.issuer, r.sub))
    else if ByLegacySubject(t, r.sub) != {} then Found(t, ByLegacySubject(t, r.sub))
    else if UsableEmail(r) && ByLinkedEmail(t, r.email.value) != {} then Found(t, ByLinkedEmail(t, r.email.value))
    else if UsableEmail(r) && ByPlaceholder(t, r.email.value) != {} then Found(t, ByPlaceholder(t, r.email.value))
    else if r.invite.TwoInvites? then Fail
    else if r.invite.ValidInvite? || r.openRegistration then Insert
    else Refuse
  }

  /** The row as this login wants it. */
  function Stamped(row: Row, r: Request): Row
    requires r.email.Some?
  {
    row.(sub := r.sub, issuer := Some(r.issuer), email := r.email.value, name := r.name, lastLogin := Some(r.now))
  }

  /** An UPDATE writes the columns that differ from the loaded row and leaves the others as they are now. */
  function Merge(current: Row, loaded: Row, wanted: Row): Row {
    current.(
      sub := if wanted.sub == loaded.sub then current.sub else wanted.sub,
      issuer := if wanted.issuer == loaded.issuer then current.issuer else wanted.issuer,
      email := if wanted.email == loaded.email then current.email else wanted.email,
      name := if wanted.name == loaded.name then current.name else wanted.name,
      lastLogin := if wanted.lastLogin == loaded.lastLogin then current.lastLogin else wanted.lastLogin)
  }

  function NewRow(r: Request): Row
    requires r.email.Some?
  {
    Row(r.sub, Some(r.issuer), r.email.value, r.name, Some(r.now), false)
  }

  /** Flush and commit: all or nothing under the constraints, then whatever follows the commit. */
  function Write(t: Table, id: UserId, row: Row, r: Request): Result {
    if r.fault.BeforeCommit? || !Constraints(t[id := row]) then Result(t, Transient)
    else Result(t[id := row], if r.fault.AfterCommit? then Transient else Persisted(id))
  }

  function Commit(t: Table, plan: Plan, r: Request): Result {
    match plan
    case Fail => Result(t, Transient)
    case Refuse => Result(t, Refused)
    case Update(id, loaded) =>
      if r.email.None? || id !in t then Result(t, Transient)
      else Write(t, id, Merge(t[id], loaded, Stamped(loaded, r)), r)
    case Insert =>
      if r.email.None? || r.freshId in t then Result(t, Transient)
      else Write(t, r.freshId, NewRow(r), r)
  }

  ghost function LogIn(t: Table, r: Request): Result {
    Commit(t, Decide(t, r), r)
  }

  // ---------------------------------------------------------------------------
  // One login
  // ---------------------------------------------------------------------------

  lemma TheOneIsOnly(s: set<UserId>, i: UserId)
    requires |s| == 1 && i in s
    ensures TheOne(s) == i
  {
    assert |s - {i}| == 0;
  }

  lemma DecidedRow(t: Table, r: Request)
    requires Decide(t, r).Update?
    ensures Decide(t, r).id in t && Decide(t, r).loaded == t[Decide(t, r).id]
  {
  }

  /** Adopting a row onto the new (issuer, subject) never collides with another row's identity. */
  lemma AdoptionCannotCollide(t: Table, r: Request, row: Row)
    requires Constraints(t) && r.email.Some?
    requires Decide(t, r).Update? || Decide(t, r).Insert?
    requires row.issuer == Some(r.issuer) && row.sub == r.sub
    ensures UniqueIdentity(t[(if Decide(t, r).Update? then Decide(t, r).id else r.freshId) := row])
  {
    var plan := Decide(t, r);
    var id := if plan.Update? then plan.id else r.freshId;
    forall j | j in t && SameIdentity(row, t[j])
      ensures j == id
    {
      var matches := ByIdentity(t, r.issuer, r.sub);
      assert j in matches;
      forall k | k in matches
        ensures k == j
      {
        assert SameIdentity(t[k], t[j]);
      }
      assert matches == {j};
      TheOneIsOnly(matches, j);
    }
  }

  ghost predicate EmailFreeFor(t: Table, id: UserId, email: string) {
    forall j :: j in t && t[j].email == email ==> j == id
  }

  /**
   Exactly which logins persist, given a sound table and a database that does not
   fail: the request has an e-mail, the lookups chose a row or an insert, and no
   other row holds the e-mail.
   */
  lemma PersistsExactlyWhen(t: Table, r: Request)
    requires Constraints(t) && r.fault.NoFault? && r.freshId !in t
    ensures LogIn(t, r).outcome.Persisted? <==>
            && r.email.Some?
            && match Decide(t, r)
               case Update(id, _) => EmailFreeFor(t, id, r.email.value)
               case Insert => EmailFreeFor(t, r.freshId, r.email.value)
               case _ => false
  {
    var plan := Decide(t, r);
    if r.email.Some? && (plan.Update? || plan.Insert?) {
      if plan.Update? { DecidedRow(t, r); }
      var id := if plan.Update? then plan.id else r.freshId;
      var row := if plan.Update? then Stamped(t[id], r) else NewRow(r);
      AdoptionCannotCollide(t, r, row);
      assert UniqueEmail(t[id := row]) <==> EmailFreeFor(t, id, r.email.value) by {
        if !EmailFreeFor(t, id, r.email.value) {
          var j :| j in t && t[j].email == r.email.value && j != id;
          assert t[id := row][j].email == t[id := row][id].email;
        }
      }
    }
  }

  /** Nobody in the table has this subject, this e-mail or the placeholder of this e-mail. */
  predicate IsStranger(t: Table, r: Request) {
    r.email.Some? && forall i :: i in t ==>
      t[i].sub != r.sub && t[i].email != r.email.value && t[i].sub != PENDING + r.email.value
  }

  /**
   An account is created only for a stranger with a valid invite or under open registration; it is
   then the only change and never an administrator.  Any other stranger is refused, and two
   matching invites count as a failure.
   */
  lemma StrangersNeedAnInvitation(t: Table, r: Request)
    requires Constraints(t) && r.fault.NoFault? && r.freshId !in t && IsStranger(t, r)
    ensures LogIn(t, r) ==
            if r.invite.TwoInvites? then Result(t, Transient)
            else if r.invite.ValidInvite? || r.openRegistration
            then
              Result(t[r.freshId := Row(r.sub, Some(r.issuer), r.email.value, r.name, Some(r.now), false)],
                     Persisted(r.freshId))
            else Result(t, Refused)
  {
    assert ByIdentity(t, r.issuer, r.sub) == {} && ByLegacySubject(t, r.sub) == {};
    assert ByLinkedEmail(t, r.email.value) == {} && ByPlaceholder(t, r.email.value) == {};
    if Decide(t, r).Insert? {
      AdoptionCannotCollide(t, r, NewRow(r));
      assert UniqueEmail(t[r.freshId := NewRow(r)]);
    }
  }

  ghost predicate CarriesLogin(row: Row, r: Request) {
    row.sub == r.sub && row.issuer == Some(r.issuer) && Some(row.email) == r.email
  }

  /** A persisted login leaves one row with its issuer, subject and e-mail, and touches no other row. */
  lemma PersistedLoginLeavesOneRow(t: Table, r: Request)
    requires Constraints(t) && LogIn(t, r).outcome.Persisted?
    ensures var t' := LogIn(t, r).table;
            var id := LogIn(t, r).outcome.id;
            && Constraints(t')
            && id in t' && CarriesLogin(t'[id], r)
            && t'[id].name == r.name && t'[id].lastLogin == Some(r.now)
            && (forall j :: j in t' && t'[j].issuer == Some(r.issuer) && t'[j].sub == r.sub ==> j == id)
            && (forall j :: j in t' && Some(t'[j].email) == r.email ==> j == id)
            && t' - {id} == t - {id}
  {
    if Decide(t, r).Update? { DecidedRow(t, r); }
    var t' := LogIn(t, r).table;
    var id := LogIn(t, r).outcome.id;
    forall j | j in t' && t'[j].issuer == Some(r.issuer) && t'[j].sub == r.sub
      ensures j == id
    {
      assert SameIdentity(t'[j], t'[id]);
    }
  }

  /** Short of a failure after the commit, a login that does not persist changes nothing. */
  lemma OtherwiseNothingChanges(t: Table, r: Request)
    requires !LogIn(t, r).outcome.Persisted? && !r.fault.AfterCommit?
    ensures LogIn(t, r).table == t
  {
  }

  /** A login never changes an id or an administrator flag, and never makes an administrator. */
  lemma LoginKeepsAdmins(t: Table, r: Request)
    ensures var t' := LogIn(t, r).table;
            && (forall i :: i in t ==> i in t' && t'[i].admin == t[i].admin)
            && (forall i :: i in t' && i !in t ==> i == r.freshId && !t'[i].admin)
  {
    if Decide(t, r).Update? { DecidedRow(t, r); }
  }

  /**
   Logging in again with the same identity, e-mail and name changes the login time
   and nothing else, whatever became of invites, registration and verification.
   */
  lemma RepeatedLoginOnlyUpdatesTime(t: Table, r: Request, again: Request)
    requires Constraints(t) && LogIn(t, r).outcome.Persisted? && again.fault.NoFault?
    requires again.sub == r.sub && again.issuer == r.issuer && again.email == r.email && again.name == r.name
    ensures var first := LogIn(t, r);
            var id := first.outcome.id;
            LogIn(first.table, again)
              == Result(first.table[id := first.table[id].(lastLogin := Some(again.now))], Persisted(id))
  {
    PersistedLoginLeavesOneRow(t, r);
    var first := LogIn(t, r);
    var t', id := first.table, first.outcome.id;
    assert ByIdentity(t', r.issuer, r.sub) == {id};
    TheOneIsOnly({id}, id);
    assert Decide(t', again) == Update(id, t'[id]);
    var row := t'[id].(lastLogin := Some(again.now));
    assert Merge(t'[id], t'[id], Stamped(t'[id], again)) == row;
    assert Constraints(t'[id := row]);
  }

  /** Without a verified e-mail, the only existing row a login can change is one with its own subject. */
  lemma UnverifiedLoginNeedsItsSubject(t: Table, r: Request, i: UserId)
    requires !r.verified && i in t && LogIn(t, r).table[i] != t[i]
    ensures t[i].sub == r.sub
  {
    if Decide(t, r).Update? { DecidedRow(t, r); }
  }

  /** So placeholders are out of its reach, unless its subject itself begins with the placeholder prefix. */
  lemma UnverifiedLoginLeavesPlaceholders(t: Table, r: Request, i: UserId)
    requires !r.verified && !IsPending(r.sub) && i in t && IsPending(t[i].sub)
    ensures i in LogIn(t, r).table && LogIn(t, r).table[i] == t[i]
  {
    LoginKeepsAdmins(t, r);
    if LogIn(t, r).table[i] != t[i] { UnverifiedLoginNeedsItsSubject(t, r, i); }
  }

  /**
   Exactly when an unverified login changes a placeholder: it has an e-mail that no other row holds,
   nobody has its identity yet, and the placeholder is the one row without an issuer that carries
   its subject; a database failure before the commit undoes it.
   */
  lemma UnverifiedLoginChangesPlaceholderExactlyWhen(t: Table, r: Request, i: UserId)
    requires Constraints(t) && !r.verified
    requires i in t && IsPending(t[i].sub) && t[i].issuer.None?
    ensures i in LogIn(t, r).table
    ensures LogIn(t, r).table[i] != t[i] <==>
            && r.email.Some? && EmailFreeFor(t, i, r.email.value) && !r.fault.BeforeCommit?
            && ByIdentity(t, r.issuer, r.sub) == {} && ByLegacySubject(t, r.sub) == {i}
  {
    LoginKeepsAdmins(t, r);
    if ByLegacySubject(t, r.sub) == {i} && ByIdentity(t, r.issuer, r.sub) == {} {
      TheOneIsOnly({i}, i);
      assert Decide(t, r) == Update(i, t[i]);
      if r.email.Some? {
        AdoptionCannotCollide(t, r, Stamped(t[i], r));
        assert UniqueEmail(t[i := Stamped(t[i], r)]) <==> EmailFreeFor(t, i, r.email.value) by {
          if !EmailFreeFor(t, i, r.email.value) {
            var j :| j in t && t[j].email == r.email.value && j != i;
            assert t[i := Stamped(t[i], r)][j].email == t[i := Stamped(t[i], r)][i].email;
          }
        }
      }
    } else if Decide(t, r).Update? {
      DecidedRow(t, r);
      assert Decide(t, r).id != i by {
        if i in ByLegacySubject(t, r.sub) && |ByLegacySubject(t, r.sub)| == 1 {
          OnlyElement(ByLegacySubject(t, r.sub), i);
        }
      }
    }
  }

  lemma OnlyElement(s: set<UserId>, i: UserId)
    requires |s| == 1 && i in s
    ensures s == {i}
  {
    assert |s - {i}| == 0;
  }

  /** The exception is real: a subject spelled like a placeholder's matches it as a legacy row. */
  lemma PlaceholderSubjectMatchesAsLegacy() returns (t: Table, r: Request)
    ensures Constraints(t) && !r.verified && 0 in t && IsPending(t[0].sub)
    ensures LogIn(t, r).outcome == Persisted(0) && LogIn(t, r).table[0].issuer == Some(r.issuer)
  {
    t := map[0 := Row("pending:a@b", None, "a@b", None, None, true)];
    r := Request("pending:a@b", "https://idp", Some("a@b"), None, false, 7, 1, NoValidInvite, false, NoFault);
    assert ByIdentity(t, r.issuer, r.sub) == {};
    assert ByLegacySubject(t, r.sub) == {0};
    TheOneIsOnly({0}, 0);
    assert Decide(t, r) == Update(0, t[0]);
  }

  ghost predicate Placeholder(row: Row, email: string) {
    row.sub == PENDING + email && row.issuer.None? && row.email == email
  }

  /** The first verified login of a new identity takes over the placeholder of its e-mail, flag included. */
  lemma FirstLoginTakesThePlaceholder(t: Table, r: Request, i: UserId)
    requires Constraints(t) && UsableEmail(r) && r.fault.NoFault?
    requires i in t && Placeholder(t[i], r.email.value)
    requires ByIdentity(t, r.issuer, r.sub) == {} && ByLegacySubject(t, r.sub) == {}
    requires forall j :: j in t && t[j].sub == t[i].sub ==> j == i
    ensures LogIn(t, r).outcome == Persisted(i)
    ensures CarriesLogin(LogIn(t, r).table[i], r) && LogIn(t, r).table[i].admin == t[i].admin
  {
    assert ByLinkedEmail(t, r.email.value) == {} by {
      forall j | j in t && t[j].email == r.email.value ensures j == i { assert t[j].email == t[i].email; }
    }
    assert ByPlaceholder(t, r.email.value) == {i};
    TheOneIsOnly({i}, i);
    assert Decide(t, r) == Update(i, t[i]);
    AdoptionCannotCollide(t, r, Stamped(t[i], r));
    assert UniqueEmail(t[i := Stamped(t[i], r)]);
    assert Merge(t[i], t[i], Stamped(t[i], r)) == Stamped(t[i], r);
  }

  // ---------------------------------------------------------------------------
  // Whose row a login takes, lookup by lookup
  // ---------------------------------------------------------------------------

  /** The login takes over row i: it carries the login and keeps its flag, and no other row changes. */
  ghost predicate TakesOver(t: Table, r: Request, i: UserId) {
    var after := LogIn(t, r);
    && after.outcome == Persisted(i) && i in t && i in after.table
    && CarriesLogin(after.table[i], r) && after.table[i].name == r.name && after.table[i].lastLogin == Some(r.now)
    && after.table[i].admin == t[i].admin && after.table - {i} == t - {i}
  }

  lemma ChosenRowIsTakenOver(t: Table, r: Request, i: UserId)
    requires Constraints(t) && r.fault.NoFault? && r.email.Some? && i in t && Decide(t, r) == Update(i, t[i])
    ensures if EmailFreeFor(t, i, r.email.value) then TakesOver(t, r, i) else LogIn(t, r) == Result(t, Transient)
  {
    var row := Stamped(t[i], r);
    AdoptionCannotCollide(t, r, row);
    assert Merge(t[i], t[i], row) == row;
    if EmailFreeFor(t, i, r.email.value) {
      assert UniqueEmail(t[i := row]);
    } else {
      var j :| j in t && t[j].email == r.email.value && j != i;
      assert t[i := row][j].email == t[i := row][i].email;
    }
  }

  /** A lookup that matches row i leads to it if it matches no other row, and to a failure otherwise. */
  lemma FoundIs(t: Table, rows: set<UserId>, i: UserId)
    requires i in rows && rows <= t.Keys
    ensures (forall j :: j in rows ==> j == i) ==> Found(t, rows) == Update(i, t[i])
    ensures (exists j :: j in rows && j != i) ==> Found(t, rows) == Fail
  {
    if j :| j in rows && j != i {
      assert j in rows - {i} && |rows - {i}| + 1 == |rows|;
    } else {
      assert rows == {i};
      TheOneIsOnly({i}, i);
    }
  }

  /** Nobody has the login's issuer and subject. */
  predicate NewIdentity(t: Table, r: Request) {
    forall j :: j in t ==> !(t[j].issuer == Some(r.issuer) && t[j].sub == r.sub)
  }

  /** And no row from before issuers were recorded has its subject. */
  predicate NewSubject(t: Table, r: Request) {
    forall j :: j in t ==> !(t[j].issuer.None? && t[j].sub == r.sub)
  }

  /** First: the row with the login's issuer and subject, whatever its e-mail and whether that is verified. */
  lemma KnownIdentityIsTakenOver(t: Table, r: Request, i: UserId)
    requires Constraints(t) && r.fault.NoFault? && r.email.Some?
    requires i in t && t[i].issuer == Some(r.issuer) && t[i].sub == r.sub
    ensures if EmailFreeFor(t, i, r.email.value) then TakesOver(t, r, i) else LogIn(t, r) == Result(t, Transient)
  {
    assert ByIdentity(t, r.issuer, r.sub) == {i} by {
      forall j | j in ByIdentity(t, r.issuer, r.sub) ensures j == i { assert SameIdentity(t[i], t[j]); }
    }
    TheOneIsOnly({i}, i);
    ChosenRowIsTakenOver(t, r, i);
  }

  /** Second: the one row without an issuer that has the subject; two of them are a failure. */
  lemma LegacySubjectIsTakenOver(t: Table, r: Request, i: UserId)
    requires Constraints(t) && r.fault.NoFault? && r.email.Some? && NewIdentity(t, r)
    requires i in t && t[i].issuer.None? && t[i].sub == r.sub
    ensures (forall j :: j in t && t[j].issuer.None? && t[j].sub == r.sub ==> j == i) ==>
              if EmailFreeFor(t, i, r.email.value) then TakesOver(t, r, i) else LogIn(t, r) == Result(t, Transient)
    ensures (exists j :: j in t && t[j].issuer.None? && t[j].sub == r.sub && j != i) ==>
              LogIn(t, r) == Result(t, Transient)
  {
    assert ByIdentity(t, r.issuer, r.sub) == {};
    assert forall j :: j in ByLegacySubject(t, r.sub) <==> j in t && t[j].issuer.None? && t[j].sub == r.sub;
    FoundIs(t, ByLegacySubject(t, r.sub), i);
    if Decide(t, r) == Update(i, t[i]) { ChosenRowIsTakenOver(t, r, i); }
  }

  /**
   Third: a verified e-mail re-links the row that holds it, unless that is a placeholder.  This goes
   before the placeholder of the e-mail, which may be there too and is then left alone.
   */
  lemma VerifiedEmailIsRelinked(t: Table, r: Request, i: UserId)
    requires Constraints(t) && r.fault.NoFault? && NewIdentity(t, r) && NewSubject(t, r)
    requires r.verified && r.email.Some? && r.email.value != ""
    requires i in t && t[i].email == r.email.value && !("pending:" <= t[i].sub)
    ensures TakesOver(t, r, i)
  {
    assert ByIdentity(t, r.issuer, r.sub) == {} && ByLegacySubject(t, r.sub) == {};
    assert ByLinkedEmail(t, r.email.value) == {i};
    TheOneIsOnly({i}, i);
    ChosenRowIsTakenOver(t, r, i);
  }

  /** Fourth: the one placeholder of a verified e-mail that no linked row holds; two of them are a failure. */
  lemma PlaceholderIsTakenOver(t: Table, r: Request, i: UserId)
    requires Constraints(t) && r.fault.NoFault? && NewIdentity(t, r) && NewSubject(t, r)
    requires r.verified && r.email.Some? && r.email.value != ""
    requires forall j :: j in t && t[j].email == r.email.value ==> "pending:" <= t[j].sub
    requires i in t && t[i].sub == "pending:" + r.email.value
    ensures (forall j :: j in t && t[j].sub == t[i].sub ==> j == i) ==>
              if EmailFreeFor(t, i, r.email.value) then TakesOver(t, r, i) else LogIn(t, r) == Result(t, Transient)
    ensures (exists j :: j in t && t[j].sub == t[i].sub && j != i) ==> LogIn(t, r) == Result(t, Transient)
  {
    assert ByIdentity(t, r.issuer, r.sub) == {} && ByLegacySubject(t, r.sub) == {};
    assert ByLinkedEmail(t, r.email.value) == {};
    assert forall j :: j in ByPlaceholder(t, r.email.value) <==> j in t && t[j].sub == t[i].sub;
    FoundIs(t, ByPlaceholder(t, r.email.value), i);
    if Decide(t, r) == Update(i, t[i]) { ChosenRowIsTakenOver(t, r, i); }
  }

  /** None of the four lookups finds a row; without a verified e-mail the last two are not made. */
  predicate FindsNobody(t: Table, r: Request) {
    && NewIdentity(t, r) && NewSubject(t, r)
    && (r.verified && r.email.Some? && r.email.value != "" ==>
          forall j :: j in t ==>
            t[j].sub != "pending:" + r.email.value && (t[j].email == r.email.value ==> "pending:" <= t[j].sub))
  }

  /**
   Last: whoever is found nowhere needs an invitation or open registration.  Their new row is the only
   change; an e-mail that somebody else holds, or that is missing, makes the insert fail.
   */
  lemma UnknownLoginInsertsExactlyWhen(t: Table, r: Request)
    requires Constraints(t) && r.fault.NoFault? && r.freshId !in t && FindsNobody(t, r)
    ensures LogIn(t, r)
         == if r.invite.TwoInvites? then Result(t, Transient)
            else if !r.invite.ValidInvite? && !r.openRegistration then Result(t, Refused)
            else if r.email.None? || exists j :: j in t && t[j].email == r.email.value then Result(t, Transient)
            else
              Result(t[r.freshId := Row(r.sub, Some(r.issuer), r.email.value, r.name, Some(r.now), false)],
                     Persisted(r.freshId))
  {
    assert ByIdentity(t, r.issuer, r.sub) == {} && ByLegacySubject(t, r.sub) == {};
    if UsableEmail(r) {
      assert ByLinkedEmail(t, r.email.value) == {} && ByPlaceholder(t, r.email.value) == {};
    }
    if Decide(t, r).Insert? && r.email.Some? {
      var row := NewRow(r);
      AdoptionCannotCollide(t, r, row);
      if j :| j in t && t[j].email == r.email.value {
        assert t[r.freshId := row][j].email == t[r.freshId := row][r.freshId].email;
      } else {
        assert UniqueEmail(t[r.freshId := row]);
      }
    }
  }

  /** A failure before the commit undoes the login; one after it hides that the login took place. */
  lemma FaultsDecideWhatIsSeen(t: Table, r: Request)
    ensures var fine := LogIn(t, r.(fault := NoFault));
            && (fine.outcome.Persisted? ==>
                  && LogIn(t, r.(fault := BeforeCommit)) == Result(t, Transient)
                  && LogIn(t, r.(fault := AfterCommit)) == Result(fine.table, Transient))
            && (!fine.outcome.Persisted? ==> LogIn(t, r) == fine)
  {
    assert Decide(t, r.(fault := NoFault)) == Decide(t, r);
    assert Decide(t, r.(fault := BeforeCommit)) == Decide(t, r) == Decide(t, r.(fault := AfterCommit));
  }

  // ---------------------------------------------------------------------------
  // Bootstrap seeding, and runs of atomic logins and seeds
  // ---------------------------------------------------------------------------

  function Admins(t: Table): set<UserId> {
    set i | i in t && t[i].admin
  }

  function ByEmail(t: Table, email: string): set<UserId> {
    set i | i in t && t[i].email == email
  }

  /** seed_bootstrap_admin: only when there is no administrator yet. */
  ghost function Seed(t: Table, email: Option<string>, freshId: UserId): Table {
    if email.None? || email.value == "" || Admins(t) != {} then t
    else if |ByEmail(t, email.value)| == 1 then
      var id := TheOne(ByEmail(t, email.value));
      t[id := t[id].(admin := true)]
    else if ByEmail(t, email.value) != {} || freshId in t then t
    else
      var t' := t[freshId := Row(PENDING + email.value, None, email.value, Some("Bootstrap Admin"), None, true)];
      if Constraints(t') then t' else t
  }

  datatype Event = LoginEvent(request: Request) | SeedEvent(email: Option<string>, freshId: UserId)

  ghost function Step(t: Table, e: Event): Table {
    match e
    case LoginEvent(r) => LogIn(t, r).table
    case SeedEvent(email, freshId) => Seed(t, email, freshId)
  }

  ghost function Run(t: Table, events: seq<Event>): Table
    decreases |events|
  {
    if events == [] then t else Run(Step(t, events[0]), events[1..])
  }

  ghost predicate AtMostOneAdmin(t: Table) {
    forall i, j :: i in Admins(t) && j in Admins(t) ==> i == j
  }

  lemma SeedKeepsInvariant(t: Table, email: Option<string>, freshId: UserId)
    requires Constraints(t) && AtMostOneAdmin(t)
    ensures Constraints(Seed(t, email, freshId)) && AtMostOneAdmin(Seed(t, email, freshId))
    ensures forall i :: i in t ==> i in Seed(t, email, freshId) && (t[i].admin ==> Seed(t, email, freshId)[i].admin)
  {
    var t' := Seed(t, email, freshId);
    if t' != t {
      assert Admins(t) == {};
      forall i, j | i in Admins(t') && j in Admins(t')
        ensures i == j
      {
        assert i !in Admins(t) && j !in Admins(t);
      }
    }
  }

  /**
   While nobody is an administrator, a seed with an e-mail makes exactly one: the row that holds the
   e-mail, or a placeholder for it; nothing else about any row changes.
   */
  lemma SeedMakesOneAdmin(t: Table, email: string, freshId: UserId)
    requires Constraints(t) && freshId !in t && email != "" && forall i :: i in t ==> !t[i].admin
    ensures forall i :: i in t && t[i].email == email ==>
              Seed(t, Some(email), freshId) == t[i := t[i].(admin := true)]
    ensures (forall i :: i in t ==> t[i].email != email) ==>
              Seed(t, Some(email), freshId)
                == t[freshId := Row("pending:" + email, None, email, Some("Bootstrap Admin"), None, true)]
  {
    assert Admins(t) == {};
    if i :| i in t && t[i].email == email {
      assert ByEmail(t, email) == {i};
      TheOneIsOnly({i}, i);
    } else {
      assert ByEmail(t, email) == {};
      assert Constraints(t[freshId := Row(PENDING + email, None, email, Some("Bootstrap Admin"), None, true)]);
    }
  }

  /** With an administrator, or without an e-mail, a seed does nothing. */
  lemma OtherSeedsDoNothing(t: Table, email: Option<string>, freshId: UserId)
    requires email.None? || email.value == "" || exists i :: i in t && t[i].admin
    ensures Seed(t, email, freshId) == t
  {
    if i :| i in t && t[i].admin { assert i in Admins(t); }
  }

  lemma StepKeepsInvariant(t: Table, e: Event)
    requires Constraints(t) && AtMostOneAdmin(t)
    ensures Constraints(Step(t, e)) && AtMostOneAdmin(Step(t, e))
    ensures forall i :: i in t ==> i in Step(t, e) && (t[i].admin ==> Step(t, e)[i].admin)
  {
    match e {
      case LoginEvent(r) =>
        LoginKeepsAdmins(t, r);
        assert forall i :: i in Admins(LogIn(t, r).table) ==> i in Admins(t);
      case SeedEvent(email, freshId) => SeedKeepsInvariant(t, email, freshId);
    }
  }

  /**
   Over every run of logins and seeds from a sound table: both constraints hold, there
   is at most one administrator, no row disappears, and an administrator stays one.
   */
  lemma {:induction false} EveryRunIsSound(t: Table, events: seq<Event>)
    requires Constraints(t) && AtMostOneAdmin(t)
    ensures Constraints(Run(t, events)) && AtMostOneAdmin(Run(t, events))
    ensures forall i :: i in t ==> i in Run(t, events) && (t[i].admin ==> Run(t, events)[i].admin)
    decreases |events|
  {
    if events != [] {
      StepKeepsInvariant(t, events[0]);
      EveryRunIsSound(Step(t, events[0]), events[1..]);
    }
  }

  /** In particular from the empty table, at most one platform administrator ever exists. */
  lemma OneBootstrapAdmin(events: seq<Event>, more: seq<Event>, i: UserId, j: UserId)
    requires i in Admins(Run(map[], events))
    requires j in Admins(Run(Run(map[], events), more))
    ensures i == j
  {
    EveryRunIsSound(map[], events);
    var t := Run(map[], events);
    EveryRunIsSound(t, more);
    assert t[i].admin && i in Admins(Run(t, more));
  }

  // ---------------------------------------------------------------------------
  // Sessions whose lookups and commits interleave
  // ---------------------------------------------------------------------------

  datatype Session = Session(request: Request, plan: Plan)

  datatype Directory = Directory(users: Table, sessions: map<nat, Session>)

  datatype SessionEvent = LookUp(session: nat, request: Request) | Finish(session: nat)

  ghost function SessionStep(d: Directory, e: SessionEvent): Directory {
    match e
    case LookUp(s, r) => d.(sessions := d.sessions[s := Session(r, Decide(d.users, r))])
    case Finish(s) =>
      if s !in d.sessions then d
      else Directory(Commit(d.users, d.sessions[s].plan, d.sessions[s].request).table, d.sessions - {s})
  }

  ghost function SessionRun(d: Directory, events: seq<SessionEvent>): Directory
    decreases |events|
  {
    if events == [] then d else SessionRun(SessionStep(d, events[0]), events[1..])
  }

  lemma CommitKeepsUsersSound(t: Table, plan: Plan, r: Request)
    requires Constraints(t)
    ensures var t' := Commit(t, plan, r).table;
            && Constraints(t')
            && (forall i :: i in t ==> i in t' && t'[i].admin == t[i].admin)
            && (forall i :: i in t' && i !in t ==> !t'[i].admin)
  {
  }

  /** Uniqueness, ids and administrator flags survive any interleaving of lookups and commits. */
  lemma {:induction false} InterleavedLoginsStaySound(d: Directory, events: seq<SessionEvent>)
    requires Constraints(d.users)
    ensures var users := SessionRun(d, events).users;
            && Constraints(users)
            && (forall i :: i in d.users ==> i in users && users[i].admin == d.users[i].admin)
            && (forall i :: i in users && i !in d.users ==> !users[i].admin)
    decreases |events|
  {
    if events != [] {
      if events[0].Finish? && events[0].session in d.sessions {
        CommitKeepsUsersSound(d.users, d.sessions[events[0].session].plan, d.sessions[events[0].session].request);
      }
      InterleavedLoginsStaySound(SessionStep(d, events[0]), events[1..]);
    }
  }

  /**
   What does not survive is the identity on the row: a login that found its row unchanged
   writes only the login time, so a re-link committed in between stays on the row.
   */
  lemma InterleavingCanLoseTheIdentity() returns (d: Directory, first: Request, second: Request)
    ensures Constraints(d.users)
    ensures var d' := SessionRun(d, [LookUp(1, first), LookUp(2, second), Finish(2)]);
            && 1 in d'.sessions
            && var result := Commit(d'.users, d'.sessions[1].plan, first);
               result.outcome == Persisted(0) && !CarriesLogin(result.table[0], first)
  {
    var row := Row("a", Some("A"), "e", None, None, false);
    d := Directory(map[0 := row], map[]);
    first := Request("a", "A", Some("e"), None, true, 5, 1, NoValidInvite, false, NoFault);
    second := Request("b", "B", Some("e"), None, true, 6, 1, NoValidInvite, false, NoFault);
    assert ByIdentity(d.users, "A", "a") == {0};
    assert ByIdentity(d.users, "B", "b") == {} && ByLegacySubject(d.users, "b") == {};
    assert ByLinkedEmail(d.users, "e") == {0};
    TheOneIsOnly({0}, 0);
    assert Decide(d.users, first) == Update(0, row) && Decide(d.users, second) == Update(0, row);
    var d1 := SessionStep(d, LookUp(1, first));
    var d2 := SessionStep(d1, LookUp(2, second));
    var d3 := SessionStep(d2, Finish(2));
    assert d3.users == map[0 := Row("b", Some("B"), "e", None, Some(6), false)];
    var events := [LookUp(1, first), LookUp(2, second), Finish(2)];
    assert events[1..] == [LookUp(2, second), Finish(2)] && events[1..][1..] == [Finish(2)];
    assert SessionRun(d2, [Finish(2)]) == d3;
    assert SessionRun(d, events) == d3;
  }

  /** A session whose commit follows its lookups at once is the login itself. */
  lemma UndisturbedSessionIsTheLogin(d: Directory, session: nat, r: Request)
    ensures SessionRun(d, [LookUp(session, r), Finish(session)])
            == Directory(LogIn(d.users, r).table, d.sessions - {session})
  {
    var events := [LookUp(session, r), Finish(session)];
    var looked := SessionStep(d, events[0]);
    assert events[1..] == [events[1]] && [events[1]][1..] == [];
    var done := SessionStep(looked, events[1]);
    assert SessionRun(looked, [events[1]]) == SessionRun(done, []);
    assert looked.sessions - {session} == d.sessions - {session};
  }

  /** A late commit writes the columns in which the login differs from what it loaded, and no others. */
  lemma LateCommitWritesWhatDiffered(t: Table, id: UserId, loaded: Row, r: Request)
    requires id in t && r.email.Some?
    requires Commit(t, Update(id, loaded), r).outcome.Persisted?
    ensures var row := Commit(t, Update(id, loaded), r).table[id];
            && row.sub == (if r.sub != loaded.sub then r.sub else t[id].sub)
            && row.issuer == (if Some(r.issuer) != loaded.issuer then Some(r.issuer) else t[id].issuer)
            && row.email == (if r.email.value != loaded.email then r.email.value else t[id].email)
            && row.name == (if r.name != loaded.name then r.name else t[id].name)
            && row.lastLogin == (if Some(r.now) != loaded.lastLogin then Some(r.now) else t[id].lastLogin)
            && row.admin == t[id].admin
  {
  }

  /** It survives exactly when every column the login left unwritten is still as loaded at its commit. */
  lemma InterleavedIdentityExactlyWhen(t: Table, id: UserId, loaded: Row, r: Request)
    requires id in t && r.email.Some?
    requires Commit(t, Update(id, loaded), r).outcome.Persisted?
    ensures CarriesLogin(Commit(t, Update(id, loaded), r).table[id], r) <==>
            && (loaded.sub == r.sub ==> t[id].sub == loaded.sub)
            && (loaded.issuer == Some(r.issuer) ==> t[id].issuer == loaded.issuer)
            && (loaded.email == r.email.value ==> t[id].email == loaded.email)
  {
  }

  // ---------------------------------------------------------------------------
  // Bootstrap seeds that interleave with sessions and with each other
  // ---------------------------------------------------------------------------

  /** A seed that found no administrator, and what it then decided. */
  datatype SeedState = Checked(email: string) | Promoting(id: UserId) | Inserting(email: string)

  datatype Startup = Startup(directory: Directory, seeds: map<nat, SeedState>)

  datatype StartupEvent =
    | InSession(event: SessionEvent)
    | SeedChecks(seed: nat, email: string)
    | SeedLooksUp(seed: nat)
    | SeedCommits(seed: nat, freshId: UserId)

  function PlaceholderFor(email: string): Row {
    Row(PENDING + email, None, email, Some("Bootstrap Admin"), None, true)
  }

  /** The commit of a seed: promote the loaded row, or insert the placeholder if the constraints allow it. */
  function CommitSeed(t: Table, plan: SeedState, freshId: UserId): Table {
    match plan
    case Checked(_) => t
    case Promoting(id) => if id in t then t[id := t[id].(admin := true)] else t
    case Inserting(email) =>
      if freshId in t || !Constraints(t[freshId := PlaceholderFor(email)]) then t
      else t[freshId := PlaceholderFor(email)]
  }

  /** The row a committing seed makes an administrator. */
  function Target(plan: SeedState, freshId: UserId): UserId {
    if plan.Promoting? then plan.id else freshId
  }

  ghost function StartupStep(s: Startup, e: StartupEvent): Startup {
    var users := s.directory.users;
    match e
    case InSession(event) => s.(directory := SessionStep(s.directory, event))
    case SeedChecks(k, email) =>
      if email == "" || k in s.seeds || Admins(users) != {} then s else s.(seeds := s.seeds[k := Checked(email)])
    case SeedLooksUp(k) =>
      if k !in s.seeds || !s.seeds[k].Checked? then s
      else
        var rows := ByEmail(users, s.seeds[k].email);
        if rows == {} then s.(seeds := s.seeds[k := Inserting(s.seeds[k].email)])
        else if |rows| == 1 then s.(seeds := s.seeds[k := Promoting(TheOne(rows))])
        else s.(seeds := s.seeds - {k})
    case SeedCommits(k, freshId) =>
      if k !in s.seeds || s.seeds[k].Checked? then s
      else Startup(s.directory.(users := CommitSeed(users, s.seeds[k], freshId)), s.seeds - {k})
  }

  ghost function StartupRun(s: Startup, events: seq<StartupEvent>): Startup
    decreases |events|
  {
    if events == [] then s else StartupRun(StartupStep(s, events[0]), events[1..])
  }

  /** The event commits a seed although another row is an administrator by now. */
  ghost predicate Overtaken(s: Startup, e: StartupEvent) {
    e.SeedCommits? && e.seed in s.seeds && !s.seeds[e.seed].Checked?
    && var users := s.directory.users;
       CommitSeed(users, s.seeds[e.seed], e.freshId) != users
       && !(Admins(users) <= {Target(s.seeds[e.seed], e.freshId)})
  }

  ghost predicate SomeSeedOvertaken(s: Startup, events: seq<StartupEvent>)
    decreases |events|
  {
    events != [] && (Overtaken(s, events[0]) || SomeSeedOvertaken(StartupStep(s, events[0]), events[1..]))
  }

  lemma StartupStepStaysSound(s: Startup, e: StartupEvent)
    requires Constraints(s.directory.users)
    ensures var users, users' := s.directory.users, StartupStep(s, e).directory.users;
            Constraints(users') && (forall i :: i in users ==> i in users' && (users[i].admin ==> users'[i].admin))
  {
    if e.InSession? && e.event.Finish? && e.event.session in s.directory.sessions {
      var session := s.directory.sessions[e.event.session];
      CommitKeepsUsersSound(s.directory.users, session.plan, session.request);
    }
  }

  /** One event keeps "at most one administrator" exactly when it is not an overtaken seed. */
  lemma StepKeepsOneAdminExactlyWhen(s: Startup, e: StartupEvent)
    requires Constraints(s.directory.users) && AtMostOneAdmin(s.directory.users)
    ensures AtMostOneAdmin(StartupStep(s, e).directory.users) <==> !Overtaken(s, e)
  {
    var users, users' := s.directory.users, StartupStep(s, e).directory.users;
    if e.SeedCommits? && users' != users {
      var id := Target(s.seeds[e.seed], e.freshId);
      assert Admins(users') == Admins(users) + {id};
    } else if e.InSession? && e.event.Finish? && e.event.session in s.directory.sessions {
      var session := s.directory.sessions[e.event.session];
      CommitKeepsUsersSound(users, session.plan, session.request);
      assert Admins(users') == Admins(users);
    }
  }

  /** Two administrators stay two. */
  lemma {:induction false} SecondAdminStays(s: Startup, events: seq<StartupEvent>)
    requires Constraints(s.directory.users) && !AtMostOneAdmin(s.directory.users)
    ensures !AtMostOneAdmin(StartupRun(s, events).directory.users)
    decreases |events|
  {
    if events != [] {
      StartupStepStaysSound(s, events[0]);
      var users, users' := s.directory.users, StartupStep(s, events[0]).directory.users;
      var i, j :| i in Admins(users) && j in Admins(users) && i != j;
      assert i in Admins(users') && j in Admins(users');
      SecondAdminStays(StartupStep(s, events[0]), events[1..]);
    }
  }

  /**
   Over every interleaving of seeds and sessions the constraints hold and no administrator is lost;
   there is at most one administrator exactly when no seed committed after another row had become
   one behind its back.
   */
  lemma {:induction false} OneAdminExactlyWhenNoSeedOvertaken(s: Startup, events: seq<StartupEvent>)
    requires Constraints(s.directory.users) && AtMostOneAdmin(s.directory.users)
    ensures Constraints(StartupRun(s, events).directory.users)
    ensures AtMostOneAdmin(StartupRun(s, events).directory.users) <==> !SomeSeedOvertaken(s, events)
    decreases |events|
  {
    if events != [] {
      var next := StartupStep(s, events[0]);
      StartupStepStaysSound(s, events[0]);
      StepKeepsOneAdminExactlyWhen(s, events[0]);
      if Overtaken(s, events[0]) {
        SecondAdminStays(next, events[1..]);
        StartupStaysSound(next, events[1..]);
      } else {
        OneAdminExactlyWhenNoSeedOvertaken(next, events[1..]);
      }
    }
  }

  lemma {:induction false} StartupStaysSound(s: Startup, events: seq<StartupEvent>)
    requires Constraints(s.directory.users)
    ensures Constraints(StartupRun(s, events).directory.users)
    decreases |events|
  {
    if events != [] {
      StartupStepStaysSound(s, events[0]);
      StartupStaysSound(StartupStep(s, events[0]), events[1..]);
    }
  }

  /** At no point of the run is more than one seed between its check and its commit. */
  ghost predicate OneSeedAtATime(s: Startup, events: seq<StartupEvent>)
    decreases |events|
  {
    |s.seeds| <= 1 && (events != [] ==> OneSeedAtATime(StartupStep(s, events[0]), events[1..]))
  }

  /** While a seed is at work nobody is an administrator. */
  ghost predicate NobodyYet(s: Startup) {
    s.seeds != map[] ==> Admins(s.directory.users) == {}
  }

  lemma StepKeepsNobodyYet(s: Startup, e: StartupEvent)
    requires Constraints(s.directory.users) && NobodyYet(s) && |s.seeds| <= 1
    ensures !Overtaken(s, e) && NobodyYet(StartupStep(s, e))
  {
    if e.InSession? && e.event.Finish? && e.event.session in s.directory.sessions {
      var session := s.directory.sessions[e.event.session];
      CommitKeepsUsersSound(s.directory.users, session.plan, session.request);
      assert Admins(StartupStep(s, e).directory.users) == Admins(s.directory.users);
    } else if e.SeedCommits? && e.seed in s.seeds {
      assert |s.seeds.Keys - {e.seed}| == 0;
      assert (s.seeds - {e.seed}).Keys == s.seeds.Keys - {e.seed};
    }
  }

  /**
   What a deployment can arrange: as long as at most one seed is ever between its check and its
   commit, there is at most one administrator, however the logins interleave with it.
   */
  lemma {:induction false} OneSeedAtATimeMakesOneAdmin(s: Startup, events: seq<StartupEvent>)
    requires Constraints(s.directory.users) && AtMostOneAdmin(s.directory.users) && NobodyYet(s)
    requires OneSeedAtATime(s, events)
    ensures AtMostOneAdmin(StartupRun(s, events).directory.users)
    decreases |events|
  {
    if events != [] {
      StepKeepsNobodyYet(s, events[0]);
      StepKeepsOneAdminExactlyWhen(s, events[0]);
      StartupStepStaysSound(s, events[0]);
      OneSeedAtATimeMakesOneAdmin(StartupStep(s, events[0]), events[1..]);
    }
  }

  /** A seed that nothing interleaves with is the atomic one. */
  lemma UndisturbedSeedIsTheSeed(s: Startup, seed: nat, email: string, freshId: UserId)
    requires seed !in s.seeds
    ensures var run := StartupRun(s, [SeedChecks(seed, email), SeedLooksUp(seed), SeedCommits(seed, freshId)]);
            && run.directory == s.directory.(users := Seed(s.directory.users, Some(email), freshId))
            && run.seeds == s.seeds
  {
    var events := [SeedChecks(seed, email), SeedLooksUp(seed), SeedCommits(seed, freshId)];
    var checked := StartupStep(s, events[0]);
    var decided := StartupStep(checked, events[1]);
    assert events[1..] == [events[1], events[2]];
    StartupTwo(checked, events[1..]);
    var users := s.directory.users;
    if email != "" && Admins(users) == {} {
      assert checked.seeds[seed := Checked(email)] == checked.seeds;
      assert s.seeds[seed := Checked(email)] - {seed} == s.seeds;
      if |ByEmail(users, email)| <= 1 {
        assert decided.seeds - {seed} == s.seeds;
      }
    }
  }

  // A row at the bootstrap e-mail, the same row after a login moved it to another one, and that login.
  const LOADED := Row("a", Some("A"), "x", None, None, false)
  const MOVED := LOADED.(email := "y", lastLogin := Some(5))
  const MOVING := Request("a", "A", Some("y"), None, true, 5, 9, NoValidInvite, false, NoFault)

  function State(users: Table, seeds: map<nat, SeedState>): Startup {
    Startup(Directory(users, map[]), seeds)
  }

  lemma FirstSeedLoads()
    ensures StartupRun(State(map[0 := LOADED], map[]), [SeedChecks(1, "x"), SeedLooksUp(1)])
            == State(map[0 := LOADED], map[1 := Promoting(0)])
  {
    assert ByEmail(map[0 := LOADED], "x") == {0};
    TheOneIsOnly({0}, 0);
    StartupTwo(State(map[0 := LOADED], map[]), [SeedChecks(1, "x"), SeedLooksUp(1)]);
  }

  lemma LoginMovesTheRow()
    ensures StartupRun(State(map[0 := LOADED], map[1 := Promoting(0)]),
                       [InSession(LookUp(7, MOVING)), InSession(Finish(7))])
            == State(map[0 := MOVED], map[1 := Promoting(0)])
  {
    assert ByIdentity(map[0 := LOADED], "A", "a") == {0};
    TheOneIsOnly({0}, 0);
    assert Decide(map[0 := LOADED], MOVING) == Update(0, LOADED);
    assert Merge(LOADED, LOADED, Stamped(LOADED, MOVING)) == MOVED;
    assert map[0 := LOADED][0 := MOVED] == map[0 := MOVED];
    StartupTwo(State(map[0 := LOADED], map[1 := Promoting(0)]), [InSession(LookUp(7, MOVING)), InSession(Finish(7))]);
  }

  lemma SecondSeedFindsNobody()
    ensures StartupRun(State(map[0 := MOVED], map[1 := Promoting(0)]), [SeedChecks(2, "x"), SeedLooksUp(2)])
            == State(map[0 := MOVED], map[1 := Promoting(0), 2 := Inserting("x")])
  {
    assert ByEmail(map[0 := MOVED], "x") == {};
    StartupTwo(State(map[0 := MOVED], map[1 := Promoting(0)]), [SeedChecks(2, "x"), SeedLooksUp(2)]);
  }

  lemma BothSeedsCommit()
    ensures Admins(StartupRun(State(map[0 := MOVED], map[1 := Promoting(0), 2 := Inserting("x")]),
                              [SeedCommits(2, 1), SeedCommits(1, 2)]).directory.users) == {0, 1}
  {
    var both := State(map[0 := MOVED], map[1 := Promoting(0), 2 := Inserting("x")]);
    assert Constraints(map[0 := MOVED][1 := PlaceholderFor("x")]);
    StartupTwo(both, [SeedCommits(2, 1), SeedCommits(1, 2)]);
  }

  /**
   It does happen: a seed loads the row with its e-mail, a login moves that row to another e-mail, a
   second seed inserts a placeholder, and then the first one promotes its row.
   */
  lemma TwoSeedsTwoAdmins() returns (s: Startup, events: seq<StartupEvent>)
    ensures Constraints(s.directory.users) && Admins(s.directory.users) == {} && s.seeds == map[]
    ensures Admins(StartupRun(s, events).directory.users) == {0, 1}
  {
    s := State(map[0 := LOADED], map[]);
    var first, moving := [SeedChecks(1, "x"), SeedLooksUp(1)], [InSession(LookUp(7, MOVING)), InSession(Finish(7))];
    var second, commits := [SeedChecks(2, "x"), SeedLooksUp(2)], [SeedCommits(2, 1), SeedCommits(1, 2)];
    events := first + (moving + (second + commits));
    FirstSeedLoads();
    LoginMovesTheRow();
    SecondSeedFindsNobody();
    BothSeedsCommit();
    StartupSplits(s, first, moving + (second + commits));
    StartupSplits(StartupRun(s, first), moving, second + commits);
    StartupSplits(StartupRun(StartupRun(s, first), moving), second, commits);
  }

  lemma StartupTwo(s: Startup, events: seq<StartupEvent>)
    requires |events| == 2
    ensures StartupRun(s, events) == StartupStep(StartupStep(s, events[0]), events[1])
  {
    assert events[1..][1..] == [];
    var last := StartupStep(StartupStep(s, events[0]), events[1]);
    assert StartupRun(StartupStep(s, events[0]), events[1..]) == StartupRun(last, []);
  }

  lemma {:induction false} StartupSplits(s: Startup, before: seq<StartupEvent>, after: seq<StartupEvent>)
    ensures StartupRun(s, before + after) == StartupRun(StartupRun(s, before), after)
    decreases |before|
  {
    if before == [] {
      assert before + after == after;
    } else {
      assert (before + after)[1..] == before[1..] + after;
      StartupSplits(StartupStep(s, before[0]), before[1..], after);
    }
  }

  // ---------------------------------------------------------------------------
  // The code itself
  // ---------------------------------------------------------------------------

  class UserDirectory {
    var users: Table

    /** scalar_one_or_none over the matching rows. */
    method OneOrNone(matches: set<UserId>) returns (found: Option<UserId>, raised: bool)
      ensures raised <==> |matches| > 1
      ensures matches == {} ==> found.None?
      ensures |matches| == 1 ==> found == Some(TheOne(matches))
    {
      if matches == {} { return None, false; }
      if |matches| > 1 { return None, true; }
      var i :| i in matches;
      TheOneIsOnly(matches, i);
      return Some(i), false;
    }

    method PersistOidcUser(r: Request) returns (outcome: Outcome)
      modifies this
      ensures Result(users, outcome) == LogIn(old(users), r)
    {
      var row, raised := OneOrNone(ByIdentity(users, r.issuer, r.sub));
      if raised { return Transient; }
      if row.None? {
        row, raised := OneOrNone(ByLegacySubject(users, r.sub));
        if raised { return Transient; }
      }
      if row.None? && UsableEmail(r) {
        row, raised := OneOrNone(ByLinkedEmail(users, r.email.value));
        if raised { return Transient; }
      }
      if row.None? && UsableEmail(r) {
        row, raised := OneOrNone(ByPlaceholder(users, r.email.value));
        if raised { return Transient; }
      }
      if row.None? {
        if r.invite.TwoInvites? { return Transient; }
        if !r.invite.ValidInvite? && !r.openRegistration { return Refused; }
        if r.email.None? || r.freshId in users { return Transient; }
        outcome := Flush(r.freshId, NewRow(r), r);
      } else {
        if r.email.None? { return Transient; }
        outcome := Flush(row.value, Stamped(users[row.value], r), r);
      }
    }

    /** Write one row and commit; roll back when a constraint or the database objects. */
    method Flush(id: UserId, row: Row, r: Request) returns (outcome: Outcome)
      modifies this
      ensures Result(users, outcome) == Write(old(users), id, row, r)
    {
      var before := users;
      users := users[id := row];
      if r.fault.BeforeCommit? || !Constraints(users) {
        users := before;
        return Transient;
      }
      return if r.fault.AfterCommit? then Transient else Persisted(id);
    }

    method SeedBootstrapAdmin(email: Option<string>, freshId: UserId)
      modifies this
      ensures users == Seed(old(users), email, freshId)
    {
      if email.None? || email.value == "" || Admins(users) != {} { return; }
      var row, raised := OneOrNone(ByEmail(users, email.value));
      if raised { return; }
      if row.Some? {
        users := users[row.value := users[row.value].(admin := true)];
        return;
      }
      var placeholder := Row(PENDING + email.value, None, email.value, Some("Bootstrap Admin"), None, true);
      if freshId !in users && Constraints(users[freshId := placeholder]) {
        users := users[freshId := placeholder];
      }
    }
  }
}
