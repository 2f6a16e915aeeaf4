# Verified models of the backend's stateful core

This project models the parts of the compliance platform's backend whose correctness depends on
state, on interleaving, on time or on a round trip, and proves what those parts are meant to
guarantee. Each module follows one component.

| module | component |
|---|---|
| `SingleFlight` | the shared Google identity lookup: cache, leader, waiters, cancellation |
| `Login` | sign-in against the users table, bootstrap administrator, interleaved sessions |
| `Access` | the four readings of organisation membership, and the per-user API key |
| `Tenancy` | composite keys, partial unique indexes and cascading deletes of the tenant tables |
| `AssessmentVersions` | the append-only assessment history, its trigger, and every writer of the row that caches it |
| `StatusWorkflow` | the implementation-status workflow and the re-scope staleness rule |
| `ThemeMapping` | the nested loops that compute the control-to-theme mapping |
| `CatalogSeeding` | startup seeding, batched commits, the destructive reseed, crashes |
| `SystemCatalog` | the versioned upsert of system templates in a session that flushes late |
| `KeySets` | the JWKS cache across key rotations, and the audience rule |
| `Bytes`, `Base64Url` | unpadded base64url, PKCE verifiers, the JWS header reader |
| `PercentCoding`, `DatabaseUrl` | DSN composition, reading and the async-to-sync rewrite |
| `CacheKeys`, `CachedCalls` | cache keys and the `cached` wrapper |
| `Heartbeat` | the scheduler heartbeat as a timed system |

How the models are built:

- A concurrent component is a state machine. A step is one stretch of code between two awaits, or
  one answer of the network, of Redis or of the clock. An event that does not fit the current state
  changes nothing, so a run is any sequence of events and every theorem about runs speaks about
  every interleaving.
- Code that updates fields or loops is also written as methods, of a class where the source keeps
  state, and each method is proved equal to the step or function the theorems are about.
- A database is a value. A statement that breaks a constraint leaves it unchanged. A query that
  expects at most one row raises when it meets two, and a unique constraint treats NULLs as
  distinct.
- Network answers, clocks, Redis failures, crashes, generated ids and set iteration orders are
  inputs, so the theorems hold for all of them. SHA-256 of a token is represented by the token, and
  the truncated MD5 of a long cache key is an arbitrary function.
- Fields named as history (`answers`, `writes`, `stored`, `served`, `beats`, `writtenAt`, `since`,
  `fromCache`) record what happened; no modelled code reads them.

## Where the code does not do what its documentation says

- `_is_readable` and the guard built on it are said to cover every way an input can fail. A guarded
  reseed raises after its delete has committed exactly when catalog_meta.json cannot be read or its
  version cannot be sent to the database, or a required table file does not give rows its table
  takes, or the theme mappings cannot be computed from the controls, or there are controls and the
  registry file the seeder reads is bad, or the system templates cannot be read or the upsert of one
  raises (`CatalogSeeding.GuardedReseedRaisesExactlyWhen`, with a witness for each). Some of
  these inputs are rows too long or keys given twice, some are bytes the guard reads and the
  seeders do not. The guard itself raises on JSON nested too deep, before anything is deleted.
- `seed_system_catalog` and `load_system_catalog_files` are said never to raise. The seeder raises when
  a template file cannot be decoded, and otherwise exactly when a listed slug is held by a private
  template or listed twice while absent, or a template that would be written does not fit its
  columns, or a template is updated twice without an insert in between: its session does not flush
  by itself, so the second update's delete misses the first one's recipes
  (`SystemCatalog.RaisesExactlyWhen`). From the second run on, a slug that two files list with
  different versions makes every run raise (`SystemCatalog.SecondRunRaisesExactlyWhen`).
- The parent row of an assessment is called a read cache of its current version, and an empty review
  block on it the definition of awaiting review. Claims, transient errors and overrides make its
  verdict differ from every version, and a review that commits after a new append leaves the old
  decision on the new version's row (`AssessmentVersions.VerdictMirrorsExactlyWhen`,
  `AssessmentVersions.ReviewMirrorsExactlyWhen`, `AssessmentVersions.LateReviewHappens`).
- The review block of a version is said to be written exactly once. The trigger lets every column of
  it but the decision be rewritten until the decision is set
  (`AssessmentVersions.ReviewBlockIsFixedExactlyWhenDecided`).
- The bootstrap seed is said to act on the first run only. Two seeds that interleave with a login can
  make two administrators (`Login.TwoSeedsTwoAdmins`, with the exact condition beside it). One seed at
  a time is enough to prevent it (`Login.OneSeedAtATimeMakesOneAdmin`).
- `_token_kid` is said to return None for every header that cannot be read. It raises exactly when
  Python's lenient base64 decoder finds JSON in the first segment that is no object or nested too
  deep (`KeySets.TokenKidCrashesExactlyWhen`); the decoder also reads text the writer would never
  have written (`Base64Url.ReaderAcceptsUnwrittenExactlyWhen`).
- A decorated function is said to be cached. Called with a keyword named `prefix` it raises instead,
  and so does its `invalidate` (`CachedCalls.PrefixKeywordBreaksTheCall`).
- The special control states are said to be settable at any time. The strict transition table
  forbids ten such moves (`StatusWorkflow.SpecialStatesAreNotAlwaysAllowed`).
- An unverified login is meant not to reach a placeholder row. It does when its subject itself
  begins with `pending:` (`Login.PlaceholderSubjectMatchesAsLegacy`).
- Re-linking is meant to leave the row with the identity that logged in. Two sessions whose lookups
  and commits interleave can lose it (`Login.InterleavingCanLoseTheIdentity`, with the exact
  condition beside it).
- The audience check is said to follow the OIDC specification. It accepts a token with a single
  audience and a foreign `azp`; that is the only difference (`KeySets.AudienceRuleExactly`).
- Invalidating a cache prefix misses every key that was hashed, because a hashed key does not carry
  the version (`CacheKeys.PrefixInvalidationReachesExactly`). A decorated function's `invalidate`
  always uses the default key, also when the function has a key builder of its own
  (`CachedCalls.InvalidateHitsItsCallExactlyWhen`).
- A heartbeat key is said to be per instance. Two instances share one when a host name contains a
  colon in the wrong place (`Heartbeat.SharedKeyHidesADeath`).

## Model

| member | source | states |
|---|---|---|
| `SingleFlight.StepKeepsInvariant` | backend/auth.py:553-592 | Every atomic step of every call, and every cancellation, keeps the invariant tying calls, futures, the in-flight table and the cache together |
| `SingleFlight.OneLookupPerToken` | backend/auth.py:569-576 | In every run at most one call at a time has a Google lookup of a token in progress |
| `SingleFlight.WaitersEndAsTheirLeader` | backend/auth.py:569-592 | A call that ended by waiting ended with exactly the result, error or cancellation of the leader of its own token |
| `SingleFlight.NoOrphanedWaiter` | backend/auth.py:569-592 | A waiter always has either a live leader that the in-flight table names, or a settled future to wake from |
| `SingleFlight.NoCallIsStuck` | backend/auth.py:553-592 | From every sound state, at most four network events, and no cancellation or new call, end any given call |
| `SingleFlight.SettledForever` | backend/auth.py:583-592 | Once a call has ended, no event whatever touches it or its future again |
| `SingleFlight.CancelledWaiterDisturbsNobody` | backend/auth.py:569-571 | After a waiter is cancelled, every continuation differs from the one without the cancellation in that waiter alone |
| `SingleFlight.ReturnedIdentitiesWereAnswered` | backend/auth.py:553-584 | Whatever identity a call returns, some completed lookup of that call's own token said it |
| `SingleFlight.CachedIdentitiesExpire` | backend/auth.py:544-582 | A cached identity came from a lookup of that very token, lives at most 300 s, and outlives the expiry Google stated by at most the delay between tokeninfo answer and write |
| `SingleFlight.CachedIdentityIsReturned` | backend/auth.py:557-561 | An arriving call asks the cache, and a readable, unexpired entry at the reply is what it returns, whatever foreign events come before and after |
| `SingleFlight.MissJoinsOrLeads` | backend/auth.py:557-576 | Without one it joins the pending lookup of its token, or leads a lookup of its own and registers its future |
| `SingleFlight.AnsweredLookupReturnsItsIdentity` | backend/auth.py:574-584 | A lookup that Google answers returns exactly that identity and settles its future with it, whatever is left to cache, whether the write lands, and whatever foreign events come between |
| `SingleFlight.WaitersAreToldTheIdentity` | backend/auth.py:569-584 | Everyone who waits for an answered lookup is told its identity |
| `SingleFlight.WaiterIsToldTheOutcome` | backend/auth.py:569-571 | A call that waits for a settled future ends with that very outcome as soon as it wakes |
| `SingleFlight.FailedLookupEndsSo` | backend/auth.py:585-592 | A failed or cancelled lookup ends so and settles its future so; a cancelled call that leads none only ends |
| `SingleFlight.EndedLookupFreesItsToken` | backend/auth.py:591-592 | However a lookup ends, its token is free for the next one and no other token is touched |
| `SingleFlight.LandedWriteIsVisible` | backend/auth.py:578-582 | A write that lands is served for what Google left the token to live and 300 s at most; with nothing left to live nothing is written |
| `SingleFlight.LookupCanBeCached` | backend/auth.py:578-582 | What a lookup writes can land, and is then what the token's next reader sees |
| `SingleFlight.Resolver.AfterCacheReply` | backend/auth.py:557-576 | The code between the cache reply and the next await: return the hit, join the pending lookup, or lead a new one |
| `SingleFlight.Resolver.AfterUserInfo` | backend/auth.py:577-592 | The code after the last Google answer: write to the cache when something is left to live, else settle at once |
| `SingleFlight.Resolver.Leave` | backend/auth.py:583-592 | Resolving the future, dropping it from the table and leaving are one step |
| `SingleFlight.Resolver.Interrupt` | backend/auth.py:585-592 | A cancellation settles the future of a leader and only ends the call of anybody else |
| `Login.AdoptionCannotCollide` | backend/auth.py:156-198 | The lookups leave no way for the chosen row to take an (issuer, subject) another row has |
| `Login.PersistsExactlyWhen` | backend/auth.py:156-326 | A login on a working database persists if and only if it has an e-mail, the lookups chose a row or an insert, and no other row holds that e-mail |
| `Login.StrangersNeedAnInvitation` | backend/auth.py:234-326 | An account is created exactly for a stranger with one valid invite or under open registration; any other stranger is refused |
| `Login.PersistedLoginLeavesOneRow` | backend/auth.py:200-383 | A persisted login leaves exactly one row with its issuer and subject and exactly one with its e-mail, the same one, and changes no other row |
| `Login.OtherwiseNothingChanges` | backend/auth.py:328-383 | A login that is refused, meets two rows, breaks a constraint or fails before its commit changes nothing |
| `Login.LoginKeepsAdmins` | backend/auth.py:156-326 | No login changes an id or an administrator flag, removes a row, or creates an administrator |
| `Login.RepeatedLoginOnlyUpdatesTime` | backend/auth.py:156-206 | Logging in again with the same identity, e-mail and name changes the login time and nothing else |
| `Login.UnverifiedLoginNeedsItsSubject` | backend/auth.py:156-222 | Without a verified e-mail the only existing row a login can change is one carrying its own subject |
| `Login.UnverifiedLoginChangesPlaceholderExactlyWhen` | backend/auth.py:156-228 | An unverified login changes a placeholder row if and only if it has an e-mail no other row holds, nobody has its identity, the placeholder is the one issuer-less row with its subject, and the database does not fail before the commit |
| `Login.UnverifiedLoginLeavesPlaceholders` | backend/auth.py:208-222 | In particular never when its subject does not begin with the placeholder prefix |
| `Login.PlaceholderSubjectMatchesAsLegacy` | backend/auth.py:164-177 | A subject spelled like a placeholder's does adopt that row, unverified |
| `Login.FirstLoginTakesThePlaceholder` | backend/auth.py:214-232 | The first verified login of a new identity takes over the placeholder of its e-mail, administrator flag included |
| `Login.EveryRunIsSound` | backend/auth.py:386-437 | Over every run of logins and seeds both uniqueness constraints hold, at most one administrator exists, no row disappears, and an administrator stays one |
| `Login.OneBootstrapAdmin` | backend/auth.py:386-437 | From the empty table, the administrators of any two points of any run are the same single row |
| `Login.InterleavedLoginsStaySound` | backend/models.py:218-233 | Uniqueness, ids and administrator flags survive every interleaving of the lookups and commits of any number of sessions |
| `Login.InterleavingCanLoseTheIdentity` | backend/auth.py:156-206 | Two interleaved sessions can leave a persisted login's row without its identity |
| `Login.InterleavedIdentityExactlyWhen` | backend/auth.py:200-206 | The identity is on the row after a late commit if and only if every column the login left unwritten is still as it was loaded |
| `Login.StepKeepsOneAdminExactlyWhen` | backend/auth.py:411-437 | With seeds and sessions interleaving, an event keeps at most one administrator if and only if it is not the commit of a seed behind whose back another row became one |
| `Login.OneAdminExactlyWhenNoSeedOvertaken` | backend/auth.py:386-437 | Over every such interleaving the constraints hold, and there is at most one administrator if and only if no seed was overtaken |
| `Login.OneSeedAtATimeMakesOneAdmin` | backend/auth.py:386-437 | If at most one seed is ever between its check and its commit, there is at most one administrator, however logins interleave |
| `Login.TwoSeedsTwoAdmins` | backend/auth.py:411-437 | It happens: two seeds and a login that moves a row to another e-mail end with two administrators |
| `Login.KnownIdentityIsTakenOver` | backend/auth.py:156-162 | First lookup: the row with the issuer and subject takes the login, verified or not, unless another row holds its e-mail, and then nothing changes |
| `Login.LegacySubjectIsTakenOver` | backend/auth.py:164-177 | Second: the one issuer-less row with the subject takes it; two of them are a failure without a trace |
| `Login.VerifiedEmailIsRelinked` | backend/auth.py:179-198 | Third, for an identity found by neither: the row that holds the verified e-mail and is no placeholder takes it, flag kept and nothing else changed, also when a placeholder of that e-mail is there |
| `Login.PlaceholderIsTakenOver` | backend/auth.py:213-228 | Fourth: with no linked row for the verified e-mail, its one placeholder takes it; two of them are a failure |
| `Login.UnknownLoginInsertsExactlyWhen` | backend/auth.py:234-326 | Whoever is found nowhere gets the one new row stated if an invite or open registration lets them in and nobody holds their e-mail; else they are refused or fail, and nothing changes |
| `Login.FaultsDecideWhatIsSeen` | backend/auth.py:328-383 | A failure before the commit undoes the login, one after it hides that it took place, and one that would not persist is the same either way |
| `Login.SeedMakesOneAdmin` | backend/auth.py:416-437 | Without an administrator, a seed with an e-mail promotes the row that holds it, or inserts a placeholder for it, and changes nothing else |
| `Login.OtherSeedsDoNothing` | backend/auth.py:401-414 | With an administrator, or without an e-mail, a seed does nothing |
| `Login.LateCommitWritesWhatDiffered` | backend/auth.py:200-206 | A late commit writes exactly the columns in which the login differs from the row it loaded |
| `Login.UndisturbedSessionIsTheLogin` | backend/auth.py:109-383 | A session with nothing between its lookups and its commit is the atomic login |
| `Login.UndisturbedSeedIsTheSeed` | backend/auth.py:386-437 | And a seed that nothing interleaves with is the atomic seed |
| `Login.UserDirectory.OneOrNone` | backend/auth.py:156-162 | The lookup raises exactly on two or more rows and otherwise returns the one row or none |
| `Login.UserDirectory.PersistOidcUser` | backend/auth.py:109-383 | The whole sign-in, lookup by lookup, is the specified login |
| `Login.UserDirectory.Flush` | backend/auth.py:328-383 | Flush and commit are all or nothing under the two constraints |
| `Login.UserDirectory.SeedBootstrapAdmin` | backend/auth.py:386-437 | The bootstrap seed promotes the row with the e-mail or inserts a placeholder, only while there is no administrator |
| `Access.GetAccessibleOrgIds` | backend/auth.py:1513-1579 | The two loops collect exactly the organisations the reachability test accepts |
| `Access.SessionCheckReadsTheCurrentRole` | backend/auth.py:1369-1510 | On every database the membership check of a session and the live-role lookup read the same role and raise together |
| `Access.ReadingsAgreeExactlyWhen` | backend/auth.py:1369-1510 | Viewer access and reachability agree if and only if the user cannot reach the organisation, or one role decides and every role that can decide is known |
| `Access.TwoActiveRelationshipsDisagree` | backend/models.py:1242-1270 | Two active relationships with one organisation, which no constraint forbids, make one reading accept and two raise |
| `Access.KeyNeverExceedsItsOwner` | backend/auth.py:793-821 | Whatever a user API key is granted, its owner's own session would be granted on the same organisation, at a role at least as high, and never above the key's frozen role |
| `Access.KeyIsCappedByBoth` | backend/auth.py:793-821 | An unexpired key of an existing owner is granted exactly what both its frozen role and its owner's session are granted |
| `Access.KeyDiesWithAccess` | backend/auth.py:707-730 | A key whose owner can no longer reach the organisation authenticates nobody |
| `Access.ReadCurrentOrgRole` | backend/auth.py:707-730 | The two queries in order: membership first, then an active relationship, raising on two rows |
| `Access.MembershipDecides` | backend/auth.py:707-730 | A direct membership gives the role, whatever relationships stand beside it |
| `Access.ActiveRelationshipDecides` | backend/auth.py:707-730 | Without one, the single active relationship gives it; two make the lookup raise, and none is no access |
| `Access.SessionCheckExactly` | backend/auth.py:1405-1510 | What the session check answers a user without a row, an unknown organisation, a member, a consultant and anybody else, by the order admin, editor, viewer |
| `Access.KeyCheckExactly` | backend/auth.py:1380-1403 | A key reaches its own organisation only, as far as its role does there, and never as a consultant |
| `Access.GrantedTokenHasALiveKey` | backend/auth.py:733-823 | A token is granted only the user and organisation of an active key with its hash that is not past its expiry and whose owner exists and can reach the organisation |
| `Access.RevokedTokenIsDenied` | backend/auth.py:743-766 | If every key with the token's hash is revoked, or there is none, the answer is 401 and no key changes |
| `Access.LiveTokenIsAnswered` | backend/auth.py:743-823 | By its first live key a token past its expiry gets 401 unstamped; otherwise it is stamped and gets the owner's current role capped by the frozen one; without an expiry a key never expires |
| `Access.KeyStore.ValidateUserApiKey` | backend/auth.py:733-823 | Answer and keys are those of the specified validation, whose denials, stamp and cap the three lemmas on tokens state |
| `Tenancy.CascadesAreConfluent` | backend/models.py:4127-4142 | Every order of referential actions that comes to rest comes to rest in the same database |
| `Tenancy.EveryCascadeTerminates` | backend/models.py:4127-4142 | No sequence of referential actions that each change something is longer than the rows plus the task links |
| `Tenancy.CascadeTerminates` | backend/models.py:4127-4142 | Some order of referential actions comes to rest within that bound |
| `Tenancy.CascadeKeepsConstraints` | backend/models.py:799-830 | What the cascade of an unrestricted delete leaves meets every constraint |
| `Tenancy.RunKeepsConstraints` | backend/models.py:4127-4153 | Every run of inserts, updates and deletes keeps every foreign key and unique index |
| `Tenancy.TenantsNeverMix` | backend/models.py:4215-4238 | In every reachable database each team member, assignment and task has all its parents in one organisation, and no control or evidence item has two accountable teams |
| `Tenancy.DeleteIsExact` | backend/models.py:799-830 | A delete removes exactly the row's descendants and mends exactly the tasks that pointed at it |
| `Tenancy.DeletesStayInsideTheTenant` | backend/models.py:4295-4316 | Deleting an organisation, or anything inside one, leaves every row of every other organisation as it was |
| `Tenancy.OrgDeleteErasesTheTenant` | backend/models.py:344-359 | Deleting an organisation leaves none of its rows behind |
| `Tenancy.RevokedMembershipLeavesTeams` | backend/models.py:4133-4137 | Revoking a membership removes the person from that organisation's teams in the same statement, and nothing else |
| `Tenancy.TeamDeleteIsExact` | backend/models.py:784-828 | Deleting a team deletes exactly its member and assignment rows, no task, control or evidence item, and its tasks forget it |
| `Tenancy.DeletedTeamHandsTasksBack` | backend/models.py:776-786 | A task the deleted team answered for is answered for by its evidence item's accountable team, if that is another |
| `Tenancy.HalfTheKeysMixTenants` | backend/models.py:795-797 | Each composite key alone accepts joining rows of all four kinds that mix two tenants |
| `Tenancy.MixedRowsCanBeAdded` | backend/models.py:788-797 | With either key dropped, every database that joins nothing yet takes in such a row and still meets all remaining constraints |
| `Tenancy.DroppedKeysLetTenantsMix` | backend/models.py:788-797 | And there is such a database of two tenants, for each kind of row and each dropped key |
| `Tenancy.TwoTenantsExist` | backend/models.py:4127-4153 | That database meets every constraint of the schema |
| `Tenancy.BothKeysKeepTenants` | backend/models.py:788-797 | Together the two keys keep tenants apart in any database |
| `Tenancy.TheSchemaIsBothHalves` | backend/models.py:788-797 | The schema is the two weaker ones together, and that assignees exist |
| `Tenancy.ClashIsASharedEntry` | backend/models.py:4143-4238 | Two rows violate a unique index exactly when they share an entry of one: so ordinary team members and assignments never clash, and accountable ones do |
| `Tenancy.UserDeleteIsExact` | backend/models.py:4127-4142 | Deleting a user takes exactly their memberships and team seats, and the tasks assigned to them forget them |
| `Tenancy.FunctionDeleteIsExact` | backend/models.py:4064-4068 | A business function goes alone, and cannot go while a team has it |
| `Tenancy.TaskIsHandedOverExactlyWhen` | backend/models.py:799-830 | A task can be handed to a team if and only if it is a team of the task's own organisation |
| `Tenancy.OneTeamAnswers` | backend/models.py:776-786 | A task is answered for by its own team, or else by the one team accountable for its evidence item, if there is one |
| `Tenancy.TwoTenantsAreReachable` | backend/models.py:4127-4153 | The database of two tenants is reached from the empty one by inserts |
| `AssessmentVersions.StatementsOnlyAppend` | backend/alembic/versions/20260901_150000_evidence_assessment_versions.py:111-184 | Whatever INSERT, UPDATE, DELETE and TRUNCATE statements are sent, while its parents live no version row disappears, and a row is never changed but for a lost actor or, until decided, its review block |
| `AssessmentVersions.RowCanBecomeExactly` | backend/alembic/versions/20260901_150000_evidence_assessment_versions.py:111-149 | The rows a version row can be brought to by statements are exactly those |
| `AssessmentVersions.GoneForGood` | backend/alembic/versions/20260901_150000_evidence_assessment_versions.py:151-174 | A row deleted after a parent was lost never comes back |
| `AssessmentVersions.ReviewBlockIsFixedExactlyWhenDecided` | backend/alembic/versions/20260901_150000_evidence_assessment_versions.py:111-139 | The trigger fixes the review block, but for a lost reviewer, if and only if its decision is set |
| `AssessmentVersions.VersionsAreGapless` | backend/models.py:2844-2858 | However workers and reviewers race, committed versions are numbered 1..n without gap or repeat and the parent names n |
| `AssessmentVersions.VersionsAreAppendOnly` | backend/models.py:2888-2905 | Over every run of workers, triggers and reviewers a version obeys that law |
| `AssessmentVersions.AppendCommitsExactlyWhenCurrent` | backend/models.py:2908-2918 | An append commits if and only if nobody appended since its worker read; the loser changes no row |
| `AssessmentVersions.RaceHasOneWinner` | backend/models.py:2908-2918 | Of two workers that read the same number the first to append wins and the second loses |
| `AssessmentVersions.VerdictMirrorsExactlyWhen` | backend/tasks_assessment.py:1074-1105 | In every run the parent's verdict is its newest version's if and only if since that append no transient error was recorded, no review overrode answers it had loaded, and the status was last written, if at all, by a review deriving that version's very status and not by a claim |
| `AssessmentVersions.ReviewMirrorsExactlyWhen` | backend/api/evidence_assessment.py:635-772 | In every run, unless the last review since the newest append was of an earlier version, the parent shows its newest version's review if and only if nobody reviewed since or the last review was whole; when no two reviews are decided at one instant, a last review of an earlier version always shows |
| `AssessmentVersions.SameInstantHidesALateReview` | backend/api/evidence_assessment.py:764-772 | At one instant it can go unseen: a late review decided like the newest version's own leaves what that one left |
| `AssessmentVersions.WithoutLateReviewsTheReviewMirrors` | backend/api/evidence_assessment.py:764-772 | As long as no review of an earlier version commits, the parent always shows its newest version's review |
| `AssessmentVersions.LateReviewReachesTheParent` | backend/api/evidence_assessment.py:635-772 | A review that loaded a version and commits after the next append leaves its decision on the parent of an unreviewed version |
| `AssessmentVersions.LateReviewHappens` | backend/api/evidence_assessment.py:764-772 | There is such a run from the first trigger on |
| `AssessmentVersions.OwnReviewRepairsTheMirror` | backend/api/evidence_assessment.py:764-772 | The newest version's own review makes the parent show it again |
| `AssessmentVersions.ReviewCommitsExactlyWhenUndecided` | backend/api/evidence_assessment.py:685-768 | A review commits if and only if it is acceptable and its version is undecided by then, or decided by that very review |
| `AssessmentVersions.OverrideWritesWhatTheAnswersSay` | backend/services/assessment_verdict.py:458-502 | A committed override writes the status its effective answers read as: sufficient if something is shown and nothing is missing or unclear, insufficient if something is missing and nothing shown, unassessable if neither occurs, partial otherwise; what equals the loaded value is left as it is by then |
| `AssessmentVersions.SomeStatusIsRead` | backend/services/assessment_verdict.py:458-502 | Every acceptable override has a status to write, and it is one that can be reviewed |
| `AssessmentVersions.CommittedReviewIsRecorded` | backend/api/evidence_assessment.py:764-772 | A committed review puts its decision, reviewer, time, reason and overrides on the frozen row and its decision on the parent; a confirmation leaves the verdict alone |
| `AssessmentVersions.ReviewOpensExactlyWhen` | backend/api/evidence_assessment.py:651-696 | A review opens if and only if the parent's status is one to confirm and names a version nobody has decided |
| `AssessmentVersions.AcceptableExactlyWhen` | backend/api/evidence_assessment.py:715-734 | An override must name an objective, and answered ones only |
| `AssessmentVersions.ClaimsAndErrorsShow` | backend/tasks_assessment.py:1074-1106 | A claim or a transient error shows on the parent, in exactly the columns it writes, until the next writer |
| `AssessmentVersions.LivingTableTakesExactly` | backend/alembic/versions/20260901_150000_evidence_assessment_versions.py:111-174 | While the parents live, a fresh row with a fresh number gets in and no row gets out |
| `AssessmentVersions.OrphanedTableOnlyShrinks` | backend/alembic/versions/20260901_150000_evidence_assessment_versions.py:151-174 | Once a parent is gone, rows can be deleted and none can be added |
| `StatusWorkflow.NoShortCutToMonitored` | backend/models.py:98-139 | No run of strict transitions reaches the monitored state in fewer moves than the distance of its start |
| `StatusWorkflow.MonitoredIsReachable` | backend/models.py:98-139 | And every status reaches it in exactly that many |
| `StatusWorkflow.MonitoredWasReviewed` | backend/models.py:98-139 | Every strict run into the monitored state passes from ready-for-review to it |
| `StatusWorkflow.SpecialStatesAreNotAlwaysAllowed` | backend/models.py:33-36 | From which states exactly the three special states can be set under strict rules |
| `StatusWorkflow.StaleExactlyWhenRestoredSinceRecorded` | backend/models.py:403-416 | Over every chronological history, a control is stale if and only if it is in scope, has a status or maturity, was restored to scope after the last recording, and the two stamps differ |
| `StatusWorkflow.OrdinaryStatesAreSetFrom` | backend/models.py:97-139 | From which states each ordinary state can be set, exactly |
| `StatusWorkflow.LooseRulesAllowEveryKnownStatus` | backend/models.py:142-201 | Only a known status can be set, and without strict rules, or over an unset, legacy or equal one, any known one |
| `StatusWorkflow.ScopeIsTheLastToggle` | backend/models.py:520-529 | A control is in scope if and only if the last write that toggled it selected it |
| `StatusWorkflow.AssessmentIsTheLastRecording` | backend/api/scoped_controls.py:168-183 | Status, maturity and recording time are those of the last recording |
| `StatusWorkflow.StampIsTheLastRestore` | backend/api/scoped_controls.py:168-183 | The restore stamp is that of the last write that put the control into scope |
| `ThemeMapping.DedupRepeatsNoPair` | backend/catalog_models.py:259-261 | No (theme, control) pair is added twice |
| `ThemeMapping.PairsIgnoreTheOrder` | backend/catalog_seeder.py:648-700 | The pairs are exactly those some NIST family of the control gives, whatever order the family set is walked in |
| `ThemeMapping.RowsHaveAnOrigin` | backend/catalog_seeder.py:672-700 | Every row's relevance is the one some family of that control gives its theme |
| `ThemeMapping.UncontestedRelevance` | backend/catalog_seeder.py:672-700 | When all families that list the theme agree on its relevance, the row has it |
| `ThemeMapping.ContestedRelevance` | backend/catalog_seeder.py:665-700 | When they disagree, the walk order decides: every listed relevance is the outcome of some order |
| `ThemeMapping.FamilyIsBeforeTheDash` | backend/catalog_seeder.py:650-663 | The family of a control identifier is the text before its first dash |
| `ThemeMapping.MappedByAnEntry` | backend/catalog_seeder.py:650-700 | A control that lists an identifier of a family is mapped to every theme that lists the family |
| `ThemeMapping.MappingSession.MapFamily` | backend/catalog_seeder.py:672-700 | One family adds its primary theme and then its supporting themes, skipping pairs already seen |
| `ThemeMapping.MappingSession.MapControl` | backend/catalog_seeder.py:650-700 | One control walks its family set in some order and adds what that order gives |
| `ThemeMapping.MappingSession.MapAll` | backend/catalog_seeder.py:646-702 | The nested loops add one row per pair, exactly the mapped pairs, and the count is the number of pairs |
| `CatalogSeeding.RegistryAlwaysDescribesControls` | backend/catalog_seeder.py:728-747 | Over all seeds, reseeds and crashes, with files changing in between, every registry row's version is carried by some control row |
| `CatalogSeeding.SeedsAreAllOrNothing` | backend/catalog_seeder.py:329-500 | Cut short anywhere, a seed leaves each single-commit table whole or empty, the objectives a batch prefix, and mappings only with their themes |
| `CatalogSeeding.BatchesTouchObjectivesOnly` | backend/catalog_seeder.py:528-574 | Every commit of the objectives loop leaves a prefix of the file cut at a batch boundary, and touches nothing else |
| `CatalogSeeding.BatchesFinish` | backend/catalog_seeder.py:528-574 | A loop that does not raise ends with the whole file |
| `CatalogSeeding.TablesAreNeverExtended` | backend/catalog_seeder.py:500-527 | A table that has any rows, complete or not, is left as it is by every later startup seed |
| `CatalogSeeding.SecondSeedChangesNothing` | backend/catalog_seeder.py:152-170 | Once all seven seeders have completed, seeding again from the same files changes nothing, and raises if and only if a system template is listed with two versions |
| `CatalogSeeding.CatalogCompletes` | backend/catalog_seeder.py:152-168 | From any part of what well-shaped files hold, the first six seeders complete every table except partially seeded objectives |
| `CatalogSeeding.SeedCompletes` | backend/catalog_seeder.py:152-170 | The whole startup seed does so too, and raises at its end if and only if the system templates cannot be read or the upsert of one raises; the templates are then untouched and otherwise as the upsert leaves them |
| `CatalogSeeding.CatalogStepsKeepSystem` | backend/catalog_seeder.py:152-168 | The first six seeders leave the system templates alone at every commit |
| `CatalogSeeding.ReseedDependsOnFilesOnly` | backend/catalog_seeder.py:811-857 | A reseed from well-shaped files leaves exactly what the files hold, whatever was there before, and raises if and only if the system templates cannot be read or the upsert of one raises |
| `CatalogSeeding.CrashedReseedRecoversExactlyWhen` | backend/catalog_seeder.py:841-857 | A reseed cut short after its delete is repaired by the next startup seed if and only if the cut did not fall between two objective batches |
| `CatalogSeeding.RefusedReseedChangesNothing` | backend/catalog_seeder.py:74-107 | With any required input missing or unreadable, a reseed changes nothing; it raises then if and only if a file the guard reads is nested too deep |
| `CatalogSeeding.BadTableRaises` | backend/catalog_seeder.py:500-574 | A table file that does not give rows its table takes makes the seed of its empty table raise |
| `CatalogSeeding.FailedCrossingRaises` | backend/catalog_seeder.py:642-700 | Controls the theme mappings cannot be computed from make the seed of an empty theme table raise |
| `CatalogSeeding.GuardedReseedRaisesExactlyWhen` | backend/catalog_seeder.py:62-213 | A reseed that passes its guard raises after its delete if and only if the version cannot be read or sent, or some table file gives no rows its table takes, or the controls cannot be mapped to themes, or there are controls and the registry file read is bad, or the system templates cannot be read or the upsert of one raises |
| `CatalogSeeding.CorruptRegistryPassesTheGuard` | backend/catalog_seeder.py:762-790 | Such inputs exist: a corrupt registry file beside a readable list of names |
| `CatalogSeeding.BadEntryPassesTheGuard` | backend/catalog_seeder.py:74-94 | A table file that parses and holds one bad entry |
| `CatalogSeeding.RepeatedKeyPassesTheGuard` | backend/catalog_models.py:136-142 | A table file whose entries are all good and two of which share a key |
| `CatalogSeeding.ByteOrderMarkPassesTheGuard` | backend/catalog_seeder.py:89-94 | A table file that only a reader of bytes can read |
| `CatalogSeeding.BadVersionPassesTheGuard` | backend/catalog_seeder.py:134-150 | A version file that cannot be decoded, or a version longer than its columns |
| `CatalogSeeding.UnmappableControlPassesTheGuard` | backend/catalog_seeder.py:650-655 | A control that is stored as a control and raises in the theme seeder: the controls are in place when it does |
| `CatalogSeeding.UndecodableTemplatePassesTheGuard` | backend/catalog_seeder.py:190-197 | A template file that cannot be decoded |
| `CatalogSeeding.OversizedTemplatePassesTheGuard` | backend/catalog_models.py:277-333 | A valid template that is to be written and does not fit its columns |
| `CatalogSeeding.PrivateTemplatePassesTheGuard` | backend/catalog_seeder.py:256-276 | A private template holding a listed slug, with every input in order |
| `CatalogSeeding.BatchesOf500` | backend/catalog_seeder.py:528-574 | After k commits the first 500 k entries are stored, and the last commit completes the file |
| `CatalogSeeding.ObjectivesStepFills` | backend/catalog_seeder.py:500-574 | The objectives seeder fills an empty table with the whole file and leaves any other alone |
| `CatalogSeeding.SeedableExactlyWhen` | backend/catalog_models.py:136-142 | A table takes the entries of a file if and only if each is good, their keys differ and the version has at most twenty characters, all sendable |
| `CatalogSeeding.SeederRaisesExactlyWhen` | backend/catalog_seeder.py:329-808 | When one seeder on its own raises, for the five tables and the registry; a missing file never makes one raise |
| `CatalogSeeding.SeederFillsExactly` | backend/catalog_seeder.py:329-702 | A seeder that does not raise fills its own empty table from its file, computes the mappings when the controls file is there and leaves them out when it is not, and touches nothing else |
| `CatalogSeeding.RegistrySeederWritesExactly` | backend/catalog_seeder.py:705-808 | The registry row of a version is written once, when there are controls of that version, from the registry file if there is one and else from the list of names |
| `CatalogSeeding.FirstBadFileEndsTheSeed` | backend/catalog_seeder.py:152-168 | The seeders run in order: with a bad file, the empty tables before its own are filled and nothing after it is touched |
| `CatalogSeeding.MissingFilesAreSkipped` | backend/catalog_seeder.py:345-349 | A startup seed that finds no files does nothing and does not raise |
| `CatalogSeeding.UnreadableVersionStopsTheSeed` | backend/catalog_seeder.py:134-150 | A version that cannot be read stops every seed before its first commit |
| `CatalogSeeding.GuardPassesExactlyWhen` | backend/catalog_seeder.py:62-107 | The guard asks that all five table files and one of the two registry files read as JSON |
| `CatalogSeeding.GuardRaisesExactlyWhen` | backend/catalog_seeder.py:89-107 | What does not pass is refused before anything is deleted, with an exception exactly when a file the guard gets to read is too deep |
| `CatalogSeeding.ReseedLeavesTheEntries` | backend/catalog_seeder.py:811-857 | After a completed reseed each table holds one row for every entry of its file, in order; the mappings come from the controls file, the registry from its own file or else from the list of names |
| `CatalogSeeding.Session.SeedObjectivesIfEmpty` | backend/catalog_seeder.py:500-527 | The objectives seeder skips a filled table or a missing file, and otherwise runs the batched loop |
| `CatalogSeeding.Session.NextBatch` | backend/catalog_seeder.py:529-567 | One more batch can be stored beside the earlier ones if and only if all entries so far become rows the table takes |
| `CatalogSeeding.Session.CommitBatches` | backend/catalog_seeder.py:528-574 | The batched loop, in a process that may die at any commit, carries out the specified commits |
| `CatalogSeeding.Session.SeedPlainIfEmpty` | backend/catalog_seeder.py:329-498 | The controls, domains and evidence seeders carry out theirs |
| `CatalogSeeding.Session.SeedThemesIfEmpty` | backend/catalog_seeder.py:577-702 | The theme seeder carries out its single commit of themes and mappings |
| `CatalogSeeding.Session.SeedRegistryIfEmpty` | backend/catalog_seeder.py:705-808 | The registry seeder refuses a version no control carries, prefers the registry file, and commits once |
| `CatalogSeeding.Session.SeedSystemCatalog` | backend/catalog_seeder.py:234-326 | The system templates are upserted in one commit, or the seeder raises without one, also when it cannot read them |
| `CatalogSeeding.Session.SeedCatalogIfEmpty` | backend/catalog_seeder.py:152-170 | The seven seeders run in order and an exception or a crash in one keeps the later ones from running |
| `CatalogSeeding.Session.ReseedCatalog` | backend/catalog_seeder.py:811-857 | The reseed refuses on missing inputs, raises with its guard, else commits the delete, which spares the system templates, and then seeds |
| `SystemCatalog.RaisesExactlyWhen` | backend/catalog_seeder.py:256-315 | The upsert raises, and so changes nothing, if and only if a listed entry would be inserted under a slug already taken, or would be written and does not fit its columns, or rewrites a template whose new recipes nothing has flushed |
| `SystemCatalog.OversizedEntryRaises` | backend/catalog_models.py:277-333 | An absent template, or a new version of one, that does not fit its columns makes the run raise |
| `SystemCatalog.UpsertIsExact` | backend/catalog_seeder.py:262-311 | With distinct slugs every listed template and its recipes equal the file when it was absent or at another version, and are untouched otherwise |
| `SystemCatalog.OthersStay` | backend/catalog_seeder.py:256-259 | Private and unlisted templates are never touched |
| `SystemCatalog.CountersAddUp` | backend/catalog_seeder.py:261-326 | Inserted, updated and skipped add up to the number of entries, whatever slugs they repeat; skipped counts exactly those up to date by their turn, inserted the ids used |
| `SystemCatalog.SecondRunRaisesExactlyWhen` | backend/catalog_seeder.py:279-315 | After any completed run, a run over the same entries skips every one and changes nothing, unless a slug is listed with two versions: then, and only then, it raises |
| `SystemCatalog.SecondFileRaisesFromThenOn` | backend/catalog_seeder.py:282-315 | It happens: a second file for a slug is taken in once and makes the next run raise |
| `SystemCatalog.PrivateSlugBlocks` | backend/catalog_seeder.py:256-276 | A private template holding a listed slug blocks the run |
| `SystemCatalog.RefreshedReadsLikeTheFile` | backend/catalog_seeder.py:262-313 | A template that was absent or at another version holds every column of the file and, level by level, the guide of that level |
| `SystemCatalog.NewTemplateIsTakenExactlyWhen` | backend/catalog_models.py:277-333 | A template for a free slug is inserted if and only if every text of it fits the length of its column |
| `SystemCatalog.StoredTemplateIsUpdatedOrSkipped` | backend/catalog_seeder.py:279-311 | A stored template is skipped at the same version and otherwise updated in place |
| `SystemCatalog.CatalogSession.Flush` | backend/database.py:33-39 | What waits in the session is sent as a whole, if and only if every entry fits and no template has two sets of recipes waiting |
| `SystemCatalog.CatalogSession.Insert` | backend/catalog_seeder.py:265-281 | A new template goes out with everything that waits, if its slug is free and its row fits; its recipes wait |
| `SystemCatalog.CatalogSession.Update` | backend/catalog_seeder.py:282-311 | The stored template takes the file's content and keeps its id and owner; what was written waits |
| `SystemCatalog.CatalogSession.Refresh` | backend/catalog_seeder.py:279-311 | A template at another version takes every field of the file, recipes included, and keeps its id and owner |
| `SystemCatalog.CatalogSession.Seed` | backend/catalog_seeder.py:234-326 | The loop over the entries, with its lookup taken once before it, is the specified upsert |
| `KeySets.StepKeepsInvariant` | backend/oidc.py:190-245 | Every step of every validation, every rotation, eviction and tick keeps the invariant on cache, writes and validations |
| `KeySets.TokenKidCrashesExactlyWhen` | backend/oidc.py:251-264 | The header reader raises if and only if Python's decoder finds JSON in the first segment that is no object, or nested too deep; from any written header it reads what that says |
| `KeySets.EmptyListCrashes` | backend/oidc.py:258-264 | The empty list raises in both its spellings, W10 and W11, whatever follows |
| `KeySets.RequestsPerValidation` | backend/oidc.py:298-340 | No key id means no request; a cached set with the token's key id means no request either; a fetched first set with it means no refetch; an unknown key id means exactly one refetch |
| `KeySets.DecodedAgainstPublishedKeys` | backend/oidc.py:190-245 | A token is decoded only against a set that contains its key id and was really published, fetched less than 3600 s plus the fetch-to-write delay before it was obtained |
| `KeySets.CacheHoldsPublishedKeys` | backend/oidc.py:200-245 | Every cached key set was in force when fetched, and the cache holds the newest write for at most an hour |
| `KeySets.PublishedKidIsNeverUnknown` | backend/oidc.py:325-340 | A key id that every key set in force during the validation carries is never called unknown |
| `KeySets.RotationIsRecovered` | backend/oidc.py:329-345 | Once the refetch answers with a set carrying the key id, the token is decoded against exactly that set, whatever else happens before the cache write returns |
| `KeySets.AudienceRuleExactly` | backend/oidc.py:357-387 | The audience check is that of section 3.1.3.7 of OpenID Connect Core 1.0 except that a foreign azp beside a single audience goes unnoticed |
| `KeySets.WhoIsValidated` | backend/oidc.py:318-328 | Exactly a bearer with a string for its key id waits for the cache; another is refused, or crashes the reader |
| `KeySets.CachedSetIsUsed` | backend/oidc.py:200-204 | A set in the cache at the reply is used whatever foreign events come between: a key id in it is decoded against exactly that set without a request, and any other asks for the refetch |
| `KeySets.MissIsFetched` | backend/oidc.py:200-223 | With nothing unexpired in the cache the set is fetched, and an unreadable cache ends the validation |
| `KeySets.FetchedSetIsUsed` | backend/oidc.py:209-245 | A successful fetch ends with the set in force at the provider's answer: a key id in it is decoded against exactly that set, another leads to the one refetch, and after that to a refusal |
| `KeySets.RotatedSetIsInForce` | backend/oidc.py:325-340 | From a rotation to the next one exactly the new key set is in force, whatever else happens |
| `KeySets.EvictedSetIsFetchedAgain` | backend/oidc.py:200-223 | After an eviction the next reader fetches |
| `KeySets.FailuresEndTheValidation` | backend/oidc.py:209-245 | A failed discovery, key request or write, and a set without keys, end the validation |
| `KeySets.FetchedSetIsServedForAnHour` | backend/oidc.py:244-245 | A fetched set, landed, is served to every reader for 3600 s and no longer |
| `KeySets.Validator.Begin` | backend/oidc.py:318-328 | A bearer without a key id is refused, or its header crashes the reader, before any await |
| `KeySets.Validator.AfterCacheReply` | backend/oidc.py:200-209 | A cached set is considered, a miss asks for the discovery document |
| `KeySets.Validator.AfterDiscovery` | backend/oidc.py:209-223 | A discovery answer leads to the key-set request, a failure ends the validation |
| `KeySets.Validator.AfterKeySet` | backend/oidc.py:222-245 | A set without keys or a failed answer ends the validation, anything else is written |
| `KeySets.Validator.AfterWrite` | backend/oidc.py:244-245 | Once the write returns, the fetched set is the one considered; a failed write ends the validation |
| `KeySets.Validator.Accept` | backend/oidc.py:330-345 | Decode when the key id is there, refetch once when it is not, reject after that |
| `Base64Url.DecodeInvertsEncode` | backend/oidc.py:393-395 | The strict decoder returns what the encoder was given |
| `Base64Url.EncodeInvertsDecode` | backend/oidc.py:393-395 | And accepts no second spelling |
| `Base64Url.RoundTrip` | backend/oidc.py:258-260 | For every byte sequence: encode, strip "=", restore the padding from the length, and decode strictly |
| `Base64Url.ReaderReadsWrittenText` | backend/oidc.py:258-260 | For every byte sequence: encode, strip "=", and read back with Python's lenient decoder |
| `Base64Url.StrictTextIsReadAlike` | backend/oidc.py:258-260 | The lenient decoder agrees with the strict one on every text that one accepts |
| `Base64Url.ReaderAcceptsExactlyWhen` | backend/oidc.py:258-260 | A segment without "=" is read if and only if it is ASCII and its symbols, foreign characters passed over, come in whole groups or leave two or three that the padding restored from the whole length fills up; the bytes are those of the symbols |
| `Base64Url.ReaderAcceptsUnwrittenExactlyWhen` | backend/oidc.py:258-260 | An accepted text is not the one the writer writes for its bytes if and only if it holds anything but URL-safe symbols, or stray bits in its last symbol |
| `Base64Url.UnpaddedLength` | backend/oidc.py:393-395 | The stripped text has ceil(4n/3) symbols, never one more than a multiple of four |
| `Base64Url.UnpaddedIsInjective` | backend/oidc.py:393-395 | Different bytes give different text |
| `Base64Url.ThirtyTwoBytesMakeAVerifier` | backend/oidc.py:398-407 | 32 bytes give 43 characters that satisfy section 4.1 of RFC 7636 |
| `Base64Url.HeaderIsReadBack` | backend/oidc.py:251-264 | The lenient reader gets the header bytes of a compact token back whatever follows the first dot |
| `Base64Url.SymbolsFollowTheTable` | backend/oidc.py:393-395 | The symbols are those of table 2 of RFC 4648, in order |
| `Base64Url.GroupIsOneNumber` | backend/oidc.py:393-395 | Three bytes and the four symbols of their group are one number to two bases |
| `Base64Url.BothAlphabetsAreRead` | backend/oidc.py:258-260 | The lenient reader takes the symbols of both alphabets for the same values, and no others |
| `PercentCoding.QuoteRoundTrip` | backend/db_url.py:49-50 | Every Unicode text comes back from its percent-encoding |
| `PercentCoding.QuotationIsPlain` | backend/db_url.py:49-50 | A quotation holds only unreserved characters and "%", so no delimiter |
| `PercentCoding.QuotedByteReads` | backend/db_url.py:49-50 | Letters, digits and four marks stand for themselves, any other byte is a percent sign and two upper-case digits |
| `PercentCoding.DigitsOfBothCasesAreRead` | backend/db_url.py:49-50 | Digits are written in upper case and read in both |
| `PercentCoding.CharBytesAreUtf8` | backend/db_url.py:49-50 | Characters are encoded as RFC 3629 says, shortest form first |
| `DatabaseUrl.CredentialsComeBack` | backend/db_url.py:42-54 | Cutting a composed DSN at "://", the first ":" and the first "@" and decoding gives back any user and password |
| `DatabaseUrl.WhichDsn` | backend/db_url.py:57-84 | DATABASE_URL wins unchanged, a missing password with a default gives the default, anything else is composed, and there is always a DSN |
| `DatabaseUrl.ToSyncKeepsOrDiffers` | backend/db_url.py:23-25 | The rewrite leaves a text alone if and only if neither pattern occurs in it |
| `DatabaseUrl.SyncIsRewrittenAsyncExactlyWhen` | backend/db_url.py:23-84 | The sync DSN equals the rewritten async DSN if and only if the DSN was given whole, or host, port and name hold neither pattern and the SSL mode is empty, disable, or require followed by text without either |
| `DatabaseUrl.ComposedDsnsSpelledOut` | backend/db_url.py:42-84 | Both composed DSNs, character by character, and their different SSL parameters |
| `DatabaseUrl.DefaultDsnsSpelledOut` | backend/db_url.py:28-54 | And what they are from nothing but a password |
| `DatabaseUrl.SettingIsTrimmed` | backend/db_url.py:28-32 | A setting counts without the space around it, and one of nothing but space is its default |
| `DatabaseUrl.SpacesAreTheBlanks` | backend/db_url.py:28-32 | The space around a setting is what Python calls space in Unicode |
| `DatabaseUrl.RewriteChangesEachOccurrence` | backend/db_url.py:23-25 | The rewrite changes each occurrence of the driver and of the SSL parameter and keeps the text between |
| `CacheKeys.MakeCacheKey` | backend/cache.py:27-61 | The key builder: version, prefix, non-None positional texts, sorted keywords, hashed beyond 200 characters; a keyword named prefix is a TypeError |
| `CacheKeys.AddKeywords` | backend/cache.py:47-51 | The loop over the sorted keywords |
| `CacheKeys.AddPositional` | backend/cache.py:42-45 | The loop over the positional arguments |
| `CacheKeys.KeyIgnoresKeywordOrder` | backend/cache.py:47-51 | Two calls that differ only in the order of their keywords have one key |
| `CacheKeys.NoneIsInvisible` | backend/cache.py:43-45 | A None among the positional arguments leaves no trace in the key |
| `CacheKeys.ColonReadsLikeTwo` | backend/cache.py:54 | An argument with a colon in its text has the key of two arguments |
| `CacheKeys.EqualsReadsLikeKeyword` | backend/cache.py:50-51 | An argument reading name=text has the key of that keyword |
| `CacheKeys.KeysTellPlainCallsApart` | backend/cache.py:39-59 | Unhashed calls of one function without delimiters in their texts share a key if and only if their positional and keyword texts agree |
| `CacheKeys.PrefixInvalidationReachesExactly` | backend/cache.py:200-211 | Invalidating a function's prefix reaches its plain keys and, but for one coincidence, none of its hashed ones |
| `CacheKeys.KeySpelledOut` | backend/cache.py:39-61 | The key, character by character, and its hashed form beyond 200 characters |
| `CacheKeys.PartsInOrder` | backend/cache.py:42-51 | Positional texts come in order, keyword texts behind their names |
| `CacheKeys.BelowGoesByTheFirstDifference` | backend/cache.py:48 | Keywords are sorted by the first character in which their names differ |
| `CacheKeys.SortSorts` | backend/cache.py:48 | Sorting puts the keywords in that order and keeps exactly those that were there |
| `CacheKeys.KeyIsMissingExactlyWhen` | backend/cache.py:98-100 | A call has no default key if and only if one of its keywords is called prefix |
| `CachedCalls.JsonKeepsNativeExactly` | backend/cache.py:122-127 | Dumping and loading keeps exactly the values without tuples and without objects, and its result is such a value |
| `CachedCalls.HitsAreStoredResults` | backend/cache.py:93-132 | In every interleaved run a hit is the JSON form of a result stored under the call's own key and not yet expired |
| `CachedCalls.RefinesPlainExactlyWhenFaithful` | backend/cache.py:93-132 | For any key builder, which may raise, the wrapper answers every interleaved run of calls, failures, expiries and invalidations as the plain function if and only if results survive JSON, calls sharing a key share their answer, and calls without a key fail so by themselves |
| `CachedCalls.DefaultRefinesPlainExactlyWhen` | backend/cache.py:93-132 | For the default builder that is: no call passes a keyword named prefix, results survive JSON, and no key collides |
| `CachedCalls.PrefixKeywordBreaksTheCall` | backend/cache.py:98-100 | One call with such a keyword is enough to part wrapper and function |
| `CachedCalls.InvalidationForcesRecomputation` | backend/cache.py:148-166 | After an invalidation that reached Redis while nobody computed under the key, the next call with it runs its function; other keys stay, and a failed invalidation changes nothing |
| `CachedCalls.RunningCallDefeatsInvalidation` | backend/cache.py:117-132 | A call that was already running stores its result after the invalidation, and the next call is served it |
| `CachedCalls.InvalidateCallIsAStep` | backend/cache.py:134-166 | A function's own invalidate is the invalidation of its default key, and nothing at all for a call with a keyword named prefix |
| `CachedCalls.InvalidateHitsItsCallExactlyWhen` | backend/cache.py:134-141 | A function's own invalidate clears a cached call if and only if its key builder gives that call the default key, and never for a call with a keyword named prefix |
| `CachedCalls.HashedResultOutlivesPrefixInvalidation` | backend/cache.py:200-211 | A result under a hashed key is still served after its function's prefix was invalidated |
| `CachedCalls.SpellingsAreInvalidatedSeparately` | backend/cache.py:134-141 | Invalidating one spelling of the arguments leaves the entry of another spelling |
| `CachedCalls.MissRunsTheFunction` | backend/cache.py:101-118 | A call that finds nothing it can read runs its function |
| `CachedCalls.FunctionsAnswerIsPassedOn` | backend/cache.py:117-132 | It is answered what the function gave, and exactly a returned value with a positive lifetime and a working Redis is stored |
| `CachedCalls.StoredResultIsServedItsWholeLife` | backend/cache.py:101-128 | A stored result answers every readable call with its key until its lifetime is over, whatever other calls and invalidations come between, and from then on the function runs again |
| `CachedCalls.PatternClearsExactly` | backend/cache.py:169-197 | An invalidation by pattern clears exactly the keys that begin so, and a failed one none |
| `CachedCalls.PlainResultGoesWithItsPrefix` | backend/cache.py:200-211 | After its prefix is invalidated, a call with a plain key runs its function |
| `CachedCalls.JsonIsElementwise` | backend/cache.py:122-127 | Lists and tuples come back as lists of what their elements come back as |
| `CachedCalls.JsonKeepsNames` | backend/cache.py:122-127 | Dictionaries keep their names in order, and objects leave their text |
| `CachedCalls.Cache.Begin` | backend/cache.py:93-118 | The wrapper up to the await of the function, with the default key, is one step of the machine; it answers on a hit and fails when the key cannot be built |
| `CachedCalls.Cache.Complete` | backend/cache.py:117-132 | After the function: store what can be stored, return what was computed |
| `CachedCalls.Cache.InvalidateOne` | backend/cache.py:134-166 | Deletes one call's default key and says whether it was there, or raises when it cannot be built |
| `CachedCalls.Cache.InvalidateMatching` | backend/cache.py:169-197 | Collects the matching keys in a loop, deletes them all and returns their number |
| `Heartbeat.KeysDiffer` | backend/celery_beat_heartbeat.py:83-95 | With colon-free host names different instances have different keys, whatever the environments hold |
| `Heartbeat.KeysCollideExactly` | backend/celery_beat_heartbeat.py:83-95 | Two different instances share a key if and only if one's host starts with a part and a colon that stand at the end of the other's environment |
| `Heartbeat.SharedKeyHidesADeath` | backend/celery_beat_heartbeat.py:83-95 | With a colon in a host name a living scheduler can keep a dead one's probe green |
| `Heartbeat.TtlCovers` | backend/celery_beat_heartbeat.py:98-102 | The lifetime exceeds two intervals, and three intervals less one second |
| `Heartbeat.DeadSchedulerIsStale` | backend/celery_beat_heartbeat.py:185-195 | A scheduler that ticks no more is stale at exactly the answered probes from its last stamp's lifetime on, whatever the others do |
| `Heartbeat.LivingSchedulerStaysFresh` | backend/celery_beat_heartbeat.py:55-70 | While ticks are at most one interval apart, one failed stamp never makes the probe stale, and two in a row only in the last second before the next tick is due |
| `Heartbeat.ThreeMissesCanCondemn` | backend/celery_beat_heartbeat.py:55-70 | The bound is tight: three failed stamps in a row make a regular scheduler stale |
| `Heartbeat.LifetimeOf` | backend/celery_beat_heartbeat.py:98-102 | 900 s without a usable interval or with one up to 300 s, else three intervals cut to whole seconds |
| `Heartbeat.LandedStampLastsItsLifetime` | backend/celery_beat_heartbeat.py:161-195 | A stamp that lands makes the probe fresh for exactly its lifetime and touches no other key; a failed one touches none |
| `Heartbeat.Process.GetClient` | backend/celery_beat_heartbeat.py:123-158 | The client cache serves one URL, is dropped on request, and is refilled when a client can be built |
| `Heartbeat.Process.WriteHeartbeat` | backend/celery_beat_heartbeat.py:161-176 | A stamp lands exactly when there is a client and Redis is reachable; a client that failed is never used again |
| `Heartbeat.Process.HeartbeatStatus` | backend/celery_beat_heartbeat.py:185-195 | Fresh or stale when Redis answers, unknown when it cannot be asked |
| `Heartbeat.Process.RunProbe` | backend/celery_beat_heartbeat.py:198-213 | The exit code is that of the verdict: the health check fails if and only if Redis answers that the key is gone |

## Left out

- Google, Keycloak, Redis and Postgres themselves: transport, signature checking, SHA-256 and MD5. Their answers are inputs.
- A corrupt entry in the JWKS or discovery cache, which only another program could have put there, and the content of the discovery document; a discovery answer is a cached or a fetched success, or a failure.
- `KeySets.AudienceRuleExactly`: string audiences only, as the code counts them; the trust a client may place in further audiences is outside the check.
- The opt-in reviewer independence of an organisation, under which a review is refused before anything is written.
- The static API key and the single-tenant pin, under which the organisation listing and the membership check differ by construction.
- The consultant-invite, organisation-invite and subscription services; a login carries whether a valid invite exists and whether registration is open.
- Rows of `team_functions` and the RESTRICT key behind them; a team has its primary function only.
- Descriptive columns, and SET NULL references from audit columns to users outside the version table.
- `AssessmentVersions.VersionsAreGapless`: does not say that the parent mirrors its newest version, because the code does not keep that; `VerdictMirrorsExactlyWhen` and `ReviewMirrorsExactlyWhen` say when it does. For the same reason there is no claim that old reviews leave the parent alone.
- `AssessmentVersions.VerdictMirrorsExactlyWhen`: the gap counts and the unassessable reason, which follow from the objective answers, are not columns of their own; deleting a user or an assessment while workers run is not modelled.
- `AssessmentVersions.ReviewMirrorsExactlyWhen`: when the last review was of an earlier version, it promises that the parent differs only if no two reviews are decided at one instant; `SameInstantHidesALateReview` shows why.
- `CatalogSeeding.ReseedDependsOnFilesOnly`: the six catalogue tables, up to generated ids, and with the mapping rows represented by the controls they are computed from; `ThemeMapping` gives the rows.
- `SystemCatalog.SecondRunRaisesExactlyWhen`: does not promise that a completed run can be repeated when files list one slug with two versions, because the code then raises.
- `SystemCatalog`: the reading and validation of the template files. Those that parse as no JSON or are not valid are skipped before the loop; whether reading one raises is an input.
- Postgres cuts a value that exceeds its column by spaces only, where the model has it refused; columns of the five catalogue tables other than key and version are part of whether an entry is good.
- An outage of the database in the middle of a seed, and other writers of the catalogue tables while one runs; a crash of the process is modelled.
- A write of the `cached` wrapper that lands after its caller saw an error; it lands before the wrapper returns, or not at all.
- JSON numbers and dictionaries with non-string keys, and wildcards inside an invalidation prefix.
- `Heartbeat.TtlCovers`: intervals are real numbers; infinities and NaN, which make the stamp fail, are not modelled.
- Texts are Unicode scalar values; lone surrogates, which quoting rejects, are not modelled in environment values, and NUL stands for them in a catalogue version.
- The catalogue diff, apply, revert and reconciliation engines, `schemas.py` validators, `tasks` modules, `main.py`, route wrappers and all web-client code, which would add only wiring and field checks.
