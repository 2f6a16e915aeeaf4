/**
 Organisation access in backend/auth.py: four separately written readings of one
 reachability rule, and the per-user API key that is capped by its owner's live role.

 The tables are maps by primary key.  Only the membership table has a uniqueness
 constraint on (organisation, user); a consultant may hold several active
 relationships with one organisation, and the lookups that expect one row raise then.
 */
module Access {
  import opened Options

  type OrgId = nat
  type UserId = nat

  datatype Member = Member(org: OrgId, user: UserId, role: string)

  /** A consultant relationship joined with the user behind its profile. */
  datatype Relationship = Relationship(org: OrgId, user: UserId, role: string, status: string)

  datatype Tables = Tables(orgs: set<OrgId>, members: map<nat, Member>, relationships: map<nat, Relationship>)

  predicate SameSeat(a: Member, b: Member) {
    a.org == b.org && a.user == b.user
  }

  /** Foreign keys, and uq_organization_members_org_user. */
  ghost predicate WellFormed(db: Tables) {
    && (forall m :: m in db.members ==> db.members[m].org in db.orgs)
    && (forall r :: r in db.relationships ==> db.relationships[r].org in db.orgs)
    && (forall m, n :: m in db.members && n in db.members && SameSeat(db.members[m], db.members[n]) ==> m == n)
  }

  function Level(role: string): nat {
    if role == "admin" then 3 else if role == "editor" then 2 else if role == "viewer" then 1 else 0
  }

  function MemberRows(db: Tables, user: UserId, org: OrgId): set<nat> {
    set m | m in db.members && db.members[m].org == org && db.members[m].user == user
  }

  function ActiveRows(db: Tables, user: UserId, org: OrgId): set<nat> {
    set r | r in db.relationships && db.relationships[r].org == org && db.relationships[r].user == user
            && db.relationships[r].status == "active"
  }

  datatype Answer<T> = Granted(value: T) | Denied(status: nat) | Raised

  datatype OneRow = NoRow | Row(id: nat) | ManyRows

  /** scalar_one_or_none. */
  ghost function OneOrNone(rows: set<nat>): OneRow {
    if rows == {} then NoRow
    else if |rows| == 1 then
      var id :| id in rows; Row(id)
    else ManyRows
  }

  /** _current_org_role: None is NoAccess, and two rows raise. */
  ghost function CurrentOrgRole(db: Tables, user: UserId, org: OrgId): Answer<Option<string>> {
    match OneOrNone(MemberRows(db, user, org))
    case ManyRows => Raised
    case Row(m) => Granted(Some(db.members[m].role))
    case NoRow =>
      match OneOrNone(ActiveRows(db, user, org))
      case ManyRows => Raised
      case Row(r) => Granted(Some(db.relationships[r].role))
      case NoRow => Granted(None)
  }

  datatype Membership = Membership(org: OrgId, role: string, isConsultant: bool)

  function RoleCheck(org: OrgId, role: string, isConsultant: bool, minRole: string): Answer<Membership> {
    if Level(role) < Level(minRole) then Denied(403) else Granted(Membership(org, role, isConsultant))
  }

  /** verify_org_membership for a session user; dbId is None for a user that was never persisted. */
  ghost function VerifySession(db: Tables, dbId: Option<UserId>, org: OrgId, minRole: string): Answer<Membership> {
    if dbId.None? then Denied(403)
    else if org !in db.orgs then Denied(404)
    else
      match OneOrNone(MemberRows(db, dbId.value, org))
      case ManyRows => Raised
      case Row(m) => RoleCheck(org, db.members[m].role, false, minRole)
      case NoRow =>
        match OneOrNone(ActiveRows(db, dbId.value, org))
        case ManyRows => Raised
        case Row(r) => RoleCheck(org, db.relationships[r].role, true, minRole)
        case NoRow => Denied(403)
  }

  /** is_user_in_org: both queries are limited to one row, so they never raise. */
  predicate IsUserInOrg(db: Tables, user: UserId, org: OrgId) {
    MemberRows(db, user, org) != {} || ActiveRows(db, user, org) != {}
  }

  /** get_accessible_org_ids: two queries, two loops over their rows, one set. */
  method GetAccessibleOrgIds(db: Tables, dbId: Option<UserId>) returns (orgIds: set<OrgId>)
    ensures dbId.None? ==> orgIds == {}
    ensures dbId.Some? ==> forall org :: org in orgIds <==> IsUserInOrg(db, dbId.value, org)
  {
    orgIds := {};
    if dbId.None? { return; }
    var user := dbId.value;
    var memberRows := set m | m in db.members && db.members[m].user == user;
    var pending := memberRows;
    while pending != {}
      invariant pending <= memberRows
      invariant forall org :: org in orgIds <==> exists m :: m in memberRows - pending && db.members[m].org == org
      decreases pending
    {
      var m :| m in pending;
      orgIds := orgIds + {db.members[m].org};
      pending := pending - {m};
    }
    var rows :=
      set r | r in db.relationships && db.relationships[r].user == user && db.relationships[r].status == "active";
    pending := rows;
    while pending != {}
      invariant pending <= rows
      invariant forall org :: org in orgIds <==>
        || (exists m :: m in memberRows && db.members[m].org == org)
        || (exists r :: r in rows - pending && db.relationships[r].org == org)
      decreases pending
    {
      var r :| r in pending;
      orgIds := orgIds + {db.relationships[r].org};
      pending := pending - {r};
    }
    forall org
      ensures org in orgIds <==> IsUserInOrg(db, user, org)
    {
      if m :| m in memberRows && db.members[m].org == org { assert m in MemberRows(db, user, org); }
      if r :| r in rows && db.relationships[r].org == org { assert r in ActiveRows(db, user, org); }
    }
  }

  // ---------------------------------------------------------------------------
  // The four readings agree, and exactly when
  // ---------------------------------------------------------------------------

  lemma OneMembershipAtMost(db: Tables, user: UserId, org: OrgId)
    requires WellFormed(db)
    ensures !OneOrNone(MemberRows(db, user, org)).ManyRows?
  {
    var rows := MemberRows(db, user, org);
    if m :| m in rows {
      assert rows == {m};
    }
  }

  /** One role decides: a direct membership, or else a single active relationship. */
  ghost predicate OneRoleDecides(db: Tables, user: UserId, org: OrgId) {
    MemberRows(db, user, org) == {} ==> |ActiveRows(db, user, org)| <= 1
  }

  ghost predicate KnownRoles(db: Tables, user: UserId, org: OrgId) {
    && (forall m :: m in MemberRows(db, user, org) ==> Level(db.members[m].role) > 0)
    && (MemberRows(db, user, org) == {} ==>
          forall r :: r in ActiveRows(db, user, org) ==> Level(db.relationships[r].role) > 0)
  }

  /** The session check and the role lookup read the same role, and fail together, on every database. */
  lemma SessionCheckReadsTheCurrentRole(db: Tables, user: UserId, org: OrgId, minRole: string)
    requires WellFormed(db)
    ensures VerifySession(db, Some(user), org, minRole).Granted? <==>
            && CurrentOrgRole(db, user, org).Granted? && CurrentOrgRole(db, user, org).value.Some?
            && Level(minRole) <= Level(CurrentOrgRole(db, user, org).value.value)
    ensures VerifySession(db, Some(user), org, minRole).Granted? ==>
            VerifySession(db, Some(user), org, minRole).value.role == CurrentOrgRole(db, user, org).value.value
    ensures VerifySession(db, Some(user), org, minRole).Raised? <==> CurrentOrgRole(db, user, org).Raised?
  {
    OneMembershipAtMost(db, user, org);
    if m :| m in MemberRows(db, user, org) { assert db.members[m].org in db.orgs; }
    if r :| r in ActiveRows(db, user, org) { assert db.relationships[r].org in db.orgs; }
  }

  /**
   Viewer access, the role lookup and the reachability test agree on a user and an
   organisation exactly when the user cannot reach it at all, or one role decides and
   every role that can decide is a known one.
   */
  lemma ReadingsAgreeExactlyWhen(db: Tables, user: UserId, org: OrgId)
    requires WellFormed(db)
    ensures (VerifySession(db, Some(user), org, "viewer").Granted? <==> IsUserInOrg(db, user, org)) <==>
            (!IsUserInOrg(db, user, org) || (OneRoleDecides(db, user, org) && KnownRoles(db, user, org)))
  {
    OneMembershipAtMost(db, user, org);
    SessionCheckReadsTheCurrentRole(db, user, org, "viewer");
    var members, active := MemberRows(db, user, org), ActiveRows(db, user, org);
    if m :| m in members {
      assert members == {m};
      assert db.members[m].org in db.orgs;
    } else if r :| r in active {
      assert db.relationships[r].org in db.orgs;
      if |active| == 1 {
        assert |active - {r}| == 0;
        assert active == {r};
      }
    }
  }

  /**
   Two active relationships and no membership: reachable by one reading, an exception in another.
   Beside them one organisation has two members and one user is a member of two.
   */
  lemma TwoActiveRelationshipsDisagree() returns (db: Tables)
    ensures WellFormed(db) && IsUserInOrg(db, 7, 1)
    ensures CurrentOrgRole(db, 7, 1).Raised? && VerifySession(db, Some(7), 1, "viewer").Raised?
    ensures IsUserInOrg(db, 7, 2) && IsUserInOrg(db, 8, 2) && IsUserInOrg(db, 8, 3)
  {
    db := Tables(
      {1, 2, 3}, map[0 := Member(2, 7, "viewer"), 1 := Member(2, 8, "admin"), 2 := Member(3, 8, "viewer")],
      map[0 := Relationship(1, 7, "viewer", "active"), 1 := Relationship(1, 7, "admin", "active")]);
    assert 0 in ActiveRows(db, 7, 1) && 1 in ActiveRows(db, 7, 1);
    assert MemberRows(db, 7, 1) == {};
    assert ActiveRows(db, 7, 1) == {0, 1};
    assert 0 in MemberRows(db, 7, 2) && 1 in MemberRows(db, 8, 2) && 2 in MemberRows(db, 8, 3);
  }

  // ---------------------------------------------------------------------------
  // Whose role counts, and what it grants
  // ---------------------------------------------------------------------------

  /** A direct membership decides, whatever relationships there are beside it. */
  lemma MembershipDecides(db: Tables, user: UserId, org: OrgId, m: nat)
    requires WellFormed(db) && m in db.members && db.members[m].org == org && db.members[m].user == user
    ensures CurrentOrgRole(db, user, org) == Granted(Some(db.members[m].role))
  {
    assert MemberRows(db, user, org) == {m} by {
      forall n | n in MemberRows(db, user, org) ensures n == m { assert SameSeat(db.members[n], db.members[m]); }
    }
  }

  predicate ActiveRow(db: Tables, user: UserId, org: OrgId, r: nat) {
    r in db.relationships && db.relationships[r].org == org && db.relationships[r].user == user
    && db.relationships[r].status == "active"
  }

  /** Without one, the single active relationship decides; two make the lookup raise, and none is no access. */
  lemma ActiveRelationshipDecides(db: Tables, user: UserId, org: OrgId)
    requires forall m :: m in db.members ==> !(db.members[m].org == org && db.members[m].user == user)
    ensures forall r :: ActiveRow(db, user, org, r) && (forall q :: ActiveRow(db, user, org, q) ==> q == r) ==>
              CurrentOrgRole(db, user, org) == Granted(Some(db.relationships[r].role))
    ensures (exists q, r :: ActiveRow(db, user, org, q) && ActiveRow(db, user, org, r) && q != r) ==>
              CurrentOrgRole(db, user, org) == Raised
    ensures (forall r :: !ActiveRow(db, user, org, r)) ==> CurrentOrgRole(db, user, org) == Granted(None)
  {
    var active := ActiveRows(db, user, org);
    assert MemberRows(db, user, org) == {};
    assert forall r :: r in active <==> ActiveRow(db, user, org, r);
    if q: nat, r: nat :| ActiveRow(db, user, org, q) && ActiveRow(db, user, org, r) && q != r {
      assert r in active - {q} && |active - {q}| + 1 == |active|;
    } else if r: nat :| ActiveRow(db, user, org, r) {
      assert active == {r};
    }
  }

  /** The minimum roles that a role satisfies, a minimum role that is no known one being satisfied by all. */
  predicate Satisfies(role: string, minRole: string) {
    match minRole
    case "admin" => role == "admin"
    case "editor" => role == "admin" || role == "editor"
    case "viewer" => role == "admin" || role == "editor" || role == "viewer"
    case _ => true
  }

  /** What the session check answers a member, a consultant and everybody else. */
  lemma SessionCheckExactly(db: Tables, user: UserId, org: OrgId, minRole: string)
    requires WellFormed(db)
    ensures VerifySession(db, None, org, minRole) == Denied(403)
    ensures org !in db.orgs ==> VerifySession(db, Some(user), org, minRole) == Denied(404)
    ensures forall m :: m in MemberRows(db, user, org) ==>
              VerifySession(db, Some(user), org, minRole)
                == if Satisfies(db.members[m].role, minRole) then Granted(Membership(org, db.members[m].role, false))
                   else Denied(403)
    ensures forall r :: MemberRows(db, user, org) == {} && ActiveRows(db, user, org) == {r} ==>
              VerifySession(db, Some(user), org, minRole)
                == if Satisfies(db.relationships[r].role, minRole)
                   then Granted(Membership(org, db.relationships[r].role, true)) else Denied(403)
    ensures org in db.orgs && MemberRows(db, user, org) == {} && ActiveRows(db, user, org) == {} ==>
              VerifySession(db, Some(user), org, minRole) == Denied(403)
  {
    if m :| m in MemberRows(db, user, org) {
      assert db.members[m].org in db.orgs;
      assert MemberRows(db, user, org) == {m} by {
        forall n | n in MemberRows(db, user, org) ensures n == m { assert SameSeat(db.members[n], db.members[m]); }
      }
    } else if r :| r in ActiveRows(db, user, org) {
      assert db.relationships[r].org in db.orgs;
      if ActiveRows(db, user, org) == {r} { OnlyRow({r}, r); }
    }
  }

  lemma OnlyRow(rows: set<nat>, id: nat)
    requires id in rows && |rows| == 1
    ensures OneOrNone(rows) == Row(id)
  {
    assert |rows - {id}| == 0;
  }

  // ---------------------------------------------------------------------------
  // Per-user API keys
  // ---------------------------------------------------------------------------

  datatype ApiKey = ApiKey(
    prefix: string, hash: string, user: UserId, org: OrgId, role: string,
    isActive: bool, expiresAt: Option<nat>, lastUsedAt: Option<nat>)

  /** What an authenticated key carries into the request. */
  datatype KeyUser = KeyUser(user: UserId, org: OrgId, role: string)

  /** min(..., key=level): the first of two equally high roles. */
  function LowerRole(frozen: string, current: string): string {
    if Level(current) < Level(frozen) then current else frozen
  }

  function Prefix(token: string): string {
    if |token| < 8 then token else token[..8]
  }

  predicate Opens(key: ApiKey, token: string) {
    key.prefix == Prefix(token) && key.isActive && key.hash == token
  }

  /** validate_user_api_key once the key is found; a missing owner has no access either. */
  ghost function ValidateKey(db: Tables, users: set<UserId>, key: ApiKey, now: nat): Answer<KeyUser> {
    if Expired(key, now) then Denied(401)
    else if key.user !in users then Denied(401)
    else
      match CurrentOrgRole(db, key.user, key.org)
      case Raised => Raised
      case Denied(status) => Denied(status)
      case Granted(None) => Denied(401)
      case Granted(Some(current)) => Granted(KeyUser(key.user, key.org, LowerRole(key.role, current)))
  }

  /** verify_org_membership for a user authenticated by such a key. */
  function VerifyKey(user: KeyUser, org: OrgId, minRole: string): Answer<Membership> {
    if user.org != org then Denied(403) else RoleCheck(org, user.role, false, minRole)
  }

  /**
   Whatever a key is granted, its owner's own session would be granted on the same
   organisation, with a role at least as high; and the key never exceeds its frozen role.
   */
  lemma KeyNeverExceedsItsOwner(db: Tables, users: set<UserId>, key: ApiKey, now: nat, org: OrgId, minRole: string)
    requires WellFormed(db)
    requires ValidateKey(db, users, key, now).Granted?
    requires VerifyKey(ValidateKey(db, users, key, now).value, org, minRole).Granted?
    ensures org == key.org
    ensures VerifySession(db, Some(key.user), org, minRole).Granted?
    ensures var role := VerifyKey(ValidateKey(db, users, key, now).value, org, minRole).value.role;
            && Level(role) <= Level(key.role)
            && Level(role) <= Level(VerifySession(db, Some(key.user), org, minRole).value.role)
  {
    SessionCheckReadsTheCurrentRole(db, key.user, key.org, minRole);
  }

  /** And it is granted exactly what both its frozen role and its owner's session are granted. */
  lemma KeyIsCappedByBoth(db: Tables, users: set<UserId>, key: ApiKey, now: nat, minRole: string)
    requires WellFormed(db) && key.user in users && !Expired(key, now)
    ensures var validated := ValidateKey(db, users, key, now);
            (validated.Granted? && VerifyKey(validated.value, key.org, minRole).Granted?) <==>
            (Level(minRole) <= Level(key.role) && VerifySession(db, Some(key.user), key.org, minRole).Granted?)
  {
    SessionCheckReadsTheCurrentRole(db, key.user, key.org, minRole);
  }

  /** A key reaches its own organisation only, and there as far as its role does, never as a consultant. */
  lemma KeyCheckExactly(user: KeyUser, org: OrgId, minRole: string)
    ensures VerifyKey(user, org, minRole)
              == if user.org == org && Satisfies(user.role, minRole)
                 then Granted(Membership(user.org, user.role, false)) else Denied(403)
  {
    match minRole {
      case "admin" => {}
      case "editor" => {}
      case "viewer" => {}
      case _ => {}
    }
  }

  /** Removing or suspending the owner's last access kills the key, without touching the key. */
  lemma KeyDiesWithAccess(db: Tables, users: set<UserId>, key: ApiKey, now: nat)
    requires !IsUserInOrg(db, key.user, key.org)
    ensures ValidateKey(db, users, key, now) == Denied(401)
  {
  }

  method FetchOneOrNone(rows: set<nat>) returns (row: OneRow)
    ensures row == OneOrNone(rows)
  {
    if rows == {} { return NoRow; }
    if |rows| > 1 { return ManyRows; }
    var id :| id in rows;
    OnlyRow(rows, id);
    return Row(id);
  }

  method ReadCurrentOrgRole(db: Tables, user: UserId, org: OrgId) returns (role: Answer<Option<string>>)
    ensures role == CurrentOrgRole(db, user, org)
  {
    var member := FetchOneOrNone(MemberRows(db, user, org));
    if member.ManyRows? { return Raised; }
    if member.Row? { return Granted(Some(db.members[member.id].role)); }
    var consultant := FetchOneOrNone(ActiveRows(db, user, org));
    if consultant.ManyRows? { return Raised; }
    return Granted(if consultant.Row? then Some(db.relationships[consultant.id].role) else None);
  }

  /** The first key, in candidate order, that this token opens. */
  function FirstOpened(keys: seq<ApiKey>, token: string): (i: Option<nat>)
    ensures i.None? ==> forall k :: 0 <= k < |keys| ==> !Opens(keys[k], token)
    ensures i.Some? ==> i.value < |keys| && Opens(keys[i.value], token)
                        && forall k :: 0 <= k < i.value ==> !Opens(keys[k], token)
    decreases |keys|
  {
    if keys == [] then None
    else if Opens(keys[0], token) then Some(0)
    else
      match FirstOpened(keys[1..], token)
      case None => None
      case Some(i) => Some(i + 1)
  }

  lemma FirstOpenedIs(keys: seq<ApiKey>, token: string, i: nat)
    requires i < |keys| && Opens(keys[i], token)
    requires forall k :: 0 <= k < i ==> !Opens(keys[k], token)
    ensures FirstOpened(keys, token) == Some(i)
  {
    var found := FirstOpened(keys, token);
    assert found.Some?;
    assert !(found.value < i) && !(i < found.value);
  }

  predicate Expired(key: ApiKey, now: nat) {
    key.expiresAt.Some? && now > key.expiresAt.value
  }

  datatype Validation = Validation(answer: Answer<KeyUser>, keys: seq<ApiKey>)

  /** validate_user_api_key: the first key the token opens is checked for expiry, stamped, and then capped. */
  ghost function ValidateToken(keys: seq<ApiKey>, token: string, now: nat, db: Tables, users: set<UserId>): Validation {
    match FirstOpened(keys, token)
    case None => Validation(Denied(401), keys)
    case Some(i) =>
      Validation(
        ValidateKey(db, users, keys[i], now),
        if Expired(keys[i], now) then keys else keys[i := keys[i].(lastUsedAt := Some(now))])
  }

  /** A key with the token's prefix and hash, not revoked. */
  predicate Live(key: ApiKey, token: string) {
    key.hash == token && key.prefix == (if |token| < 8 then token else token[..8]) && key.isActive
  }

  /** The key has an expiry and it has passed. */
  predicate Past(key: ApiKey, now: nat) {
    match key.expiresAt
    case None => false
    case Some(at) => at < now
  }

  /**
   Whoever is granted anything holds a token whose key is live and not past its expiry, belongs to an
   existing user who can still reach the organisation, and grants that user and organisation, at the
   frozen or the current role.
   */
  lemma GrantedTokenHasALiveKey(keys: seq<ApiKey>, token: string, now: nat, db: Tables, users: set<UserId>)
    returns (i: nat)
    requires ValidateToken(keys, token, now, db, users).answer.Granted?
    ensures i < |keys| && Live(keys[i], token) && !Past(keys[i], now) && keys[i].user in users
    ensures IsUserInOrg(db, keys[i].user, keys[i].org)
    ensures var granted, current := ValidateToken(keys, token, now, db, users).answer.value,
                                    CurrentOrgRole(db, keys[i].user, keys[i].org);
            && granted.user == keys[i].user && granted.org == keys[i].org
            && current.Granted? && current.value.Some? && granted.role in {keys[i].role, current.value.value}
  {
    i := FirstOpened(keys, token).value;
  }

  /** A token without a live key, because it never had one or because all of them are revoked, changes nothing. */
  lemma RevokedTokenIsDenied(keys: seq<ApiKey>, token: string, now: nat, db: Tables, users: set<UserId>)
    requires forall k :: k in keys ==> !Live(k, token)
    ensures ValidateToken(keys, token, now, db, users) == Validation(Denied(401), keys)
  {
    forall k | 0 <= k < |keys| ensures !Opens(keys[k], token) { assert !Live(keys[k], token); }
  }

  /**
   What becomes of a token by its first live key: past its expiry it is denied and not stamped; otherwise
   its use is stamped, and it gets the owner's current access to the key's organisation, capped by
   the role frozen on the key.
   */
  lemma LiveTokenIsAnswered(keys: seq<ApiKey>, token: string, now: nat, db: Tables, users: set<UserId>, i: nat)
    requires i < |keys| && Live(keys[i], token)
    requires forall j :: 0 <= j < i ==> !Live(keys[j], token)
    ensures var key, result := keys[i], ValidateToken(keys, token, now, db, users);
            && result.keys == (if Past(key, now) then keys else keys[i := key.(lastUsedAt := Some(now))])
            && (Past(key, now) || key.user !in users ==> result.answer == Denied(401))
            && (!Past(key, now) && key.user in users ==>
                  match CurrentOrgRole(db, key.user, key.org)
                  case Granted(Some(current)) =>
                    result.answer == Granted(KeyUser(
                      key.user, key.org,
                      if Satisfies(current, key.role) then key.role else current))
                  case Granted(None) => result.answer == Denied(401)
                  case _ => result.answer == Raised)
  {
    FirstOpenedIs(keys, token, i);
  }

  class KeyStore {
    var keys: seq<ApiKey>

    /** Find the key, check its expiry, stamp its use, and only then look at its owner. */
    method ValidateUserApiKey(token: string, now: nat, db: Tables, users: set<UserId>) returns (answer: Answer<KeyUser>)
      modifies this
      ensures Validation(answer, keys) == ValidateToken(old(keys), token, now, db, users)
    {
      var i := 0;
      while i < |keys| && !Opens(keys[i], token)
        invariant i <= |keys| && keys == old(keys)
        invariant forall k :: 0 <= k < i ==> !Opens(keys[k], token)
      {
        i := i + 1;
      }
      if i == |keys| { return Denied(401); }
      FirstOpenedIs(keys, token, i);
      var key := keys[i];
      if Expired(key, now) { return Denied(401); }
      keys := keys[i := key.(lastUsedAt := Some(now))];
      if key.user !in users { return Denied(401); }
      var current := ReadCurrentOrgRole(db, key.user, key.org);
      match current {
        case Raised => return Raised;
        case Denied(status) => return Denied(status);
        case Granted(None) => return Denied(401);
        case Granted(Some(role)) => return Granted(KeyUser(key.user, key.org, LowerRole(key.role, role)));
      }
    }
  }
}
