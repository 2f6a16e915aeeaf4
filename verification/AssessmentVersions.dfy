/**
 The append-only history of an evidence assessment (backend/models.py) and everything that writes
 the row caching its newest version: the worker's append, claim and transient error
 (backend/tasks_assessment.py), the trigger endpoint and the review (backend/api/evidence_assessment.py).

 Any number of workers and reviewers interleave.  A worker appends under the unique constraint on
 the version number and updates the parent in the same transaction.  A review loads the parent and
 its current version, and later commits: its UPDATE writes only the parent columns that differ from
 what it loaded, and the version row only if the database trigger lets it.
 */
module AssessmentVersions {
  import opened Options

  // ---------------------------------------------------------------------------
  // Verdicts
  // ---------------------------------------------------------------------------

  datatype Designation = Satisfied | Gap | CannotAssess | NotApplicable

  datatype Status = Pending | Processing | Failed | Sufficient | Partial | Insufficient | Unassessable

  /** An answer to one objective; an override marks those a human gave. */
  datatype Answer = Answer(objective: string, designation: Designation, byHuman: bool)

  /** Summary and findings; only a transient error carries the retryable flag. */
  datatype Narrative = Narrative(text: string, retryable: bool)

  datatype Verdict = Verdict(status: Status, narrative: Narrative, answers: seq<Answer>)

  predicate Reviewable(s: Status) {
    s.Sufficient? || s.Partial? || s.Insufficient? || s.Unassessable?
  }

  /** What the worker appends: a finished status, no retry pending, no answer by a human. */
  predicate FromTheWorker(v: Verdict) {
    && (Reviewable(v.status) || v.status.Failed?) && !v.narrative.retryable
    && forall i :: 0 <= i < |v.answers| ==> !v.answers[i].byHuman
  }

  type WorkerVerdict = v: Verdict | FromTheWorker(v) witness Verdict(Failed, Narrative("", false), [])

  /** The AI's answers with the human's substituted where given. */
  function Effective(answers: seq<Answer>, overrides: map<string, Designation>): (result: seq<Answer>)
    ensures |result| == |answers|
    ensures forall i :: 0 <= i < |answers| ==>
              result[i] == if answers[i].objective in overrides
                           then Answer(answers[i].objective, overrides[answers[i].objective], true) else answers[i]
  {
    if answers == [] then []
    else
      [if answers[0].objective in overrides
       then Answer(answers[0].objective, overrides[answers[0].objective], true) else answers[0]]
      + Effective(answers[1..], overrides)
  }

  predicate Designates(answers: seq<Answer>, d: Designation) {
    exists i :: 0 <= i < |answers| && answers[i].designation == d
  }

  /** derive_assessment_status; None when there is no objective to derive from. */
  function Derived(answers: seq<Answer>): Option<Status> {
    if answers == [] then None
    else if !Designates(answers, Satisfied) && !Designates(answers, Gap) then Some(Unassessable)
    else if !Designates(answers, Gap) then Some(if Designates(answers, CannotAssess) then Partial else Sufficient)
    else Some(if Designates(answers, Satisfied) then Partial else Insufficient)
  }

  // ---------------------------------------------------------------------------
  // Version rows, and the trigger that guards them
  // ---------------------------------------------------------------------------

  /** The review columns that version and parent share. */
  datatype Review = Review(decision: Option<string>, reviewer: Option<nat>, at: Option<nat>)

  const UNREVIEWED := Review(None, None, None)

  datatype Version = Version(
    number: nat, verdict: WorkerVerdict, requester: Option<nat>,
    review: Review, reason: Option<string>, overrides: map<string, Designation>)

  /** A reference to a user may be lost, never gained or swapped. */
  predicate KeptOrLost(before: Option<nat>, after: Option<nat>) {
    after.None? || after == before
  }

  /** The update trigger: a review of an undecided row, or the loss of an actor. */
  predicate UpdateAllowed(before: Version, after: Version) {
    || (before.review.decision.None?
        && after == before.(review := after.review, reason := after.reason, overrides := after.overrides))
    || (&& after == before.(requester := after.requester, review := before.review.(reviewer := after.review.reviewer))
        && KeptOrLost(before.requester, after.requester) && KeptOrLost(before.review.reviewer, after.review.reviewer))
  }

  /** What the row of a version may have become: frozen but for lost actors, and open to a review until decided. */
  predicate Survives(before: Version, after: Version) {
    && after.number == before.number && after.verdict == before.verdict
    && KeptOrLost(before.requester, after.requester)
    && (before.review.decision.Some? ==>
          && after.reason == before.reason && after.overrides == before.overrides
          && after.review == before.review.(reviewer := after.review.reviewer)
          && KeptOrLost(before.review.reviewer, after.review.reviewer))
  }

  /** Whether each of the three parents of a version row still exists. */
  datatype Parents = Parents(organization: bool, file: bool, assessment: bool)

  predicate Alive(p: Parents) {
    p.organization && p.file && p.assessment
  }

  /** The version table by row id. */
  datatype VersionTable = VersionTable(rows: map<nat, Version>, parents: Parents)

  /** Any statement anybody may send, and the parents' disappearance. */
  datatype Statement =
    | Insert(id: nat, row: Version)
    | Update(id: nat, row: Version)
    | Delete(id: nat)
    | Truncate
    | Lose(left: Parents)

  predicate NumberTaken(rows: map<nat, Version>, number: nat) {
    exists id :: id in rows && rows[id].number == number
  }

  function Execute(t: VersionTable, s: Statement): VersionTable {
    match s
    case Insert(id, row) =>
      if Alive(t.parents) && id !in t.rows && !NumberTaken(t.rows, row.number)
      then t.(rows := t.rows[id := row]) else t
    case Update(id, row) => if id in t.rows && UpdateAllowed(t.rows[id], row) then t.(rows := t.rows[id := row]) else t
    case Delete(id) => if Alive(t.parents) then t else t.(rows := t.rows - {id})
    case Truncate => t
    case Lose(left) =>
      t.(parents := Parents(t.parents.organization && left.organization, t.parents.file && left.file,
                            t.parents.assessment && left.assessment))
  }

  function ExecuteAll(t: VersionTable, statements: seq<Statement>): VersionTable
    decreases |statements|
  {
    if statements == [] then t else ExecuteAll(Execute(t, statements[0]), statements[1..])
  }

  lemma SurvivalIsTransitive(a: Version, b: Version, c: Version)
    requires Survives(a, b) && Survives(b, c)
    ensures Survives(a, c)
  {
  }

  lemma AllowedUpdatesSurvive(before: Version, after: Version)
    requires UpdateAllowed(before, after)
    ensures Survives(before, after)
  {
  }

  /**
   Whatever statements are sent: while its parents live no version row disappears, and a row that
   is there is the row that was there, but for lost actors and for a review of an undecided one.
   */
  lemma {:induction false} StatementsOnlyAppend(t: VersionTable, statements: seq<Statement>, id: nat)
    requires id in t.rows
    ensures var t' := ExecuteAll(t, statements);
            && (Alive(t'.parents) ==> id in t'.rows)
            && (id in t'.rows ==> Survives(t.rows[id], t'.rows[id]))
    decreases |statements|
  {
    if statements != [] {
      var next := Execute(t, statements[0]);
      if id in next.rows {
        StatementsOnlyAppend(next, statements[1..], id);
        if next.rows[id] != t.rows[id] { AllowedUpdatesSurvive(t.rows[id], next.rows[id]); }
        if id in ExecuteAll(next, statements[1..]).rows {
          SurvivalIsTransitive(t.rows[id], next.rows[id], ExecuteAll(next, statements[1..]).rows[id]);
        }
      } else {
        GoneForGood(next, statements[1..], id);
      }
    }
  }

  /** A row deleted with a parent does not come back. */
  lemma {:induction false} GoneForGood(t: VersionTable, statements: seq<Statement>, id: nat)
    requires !Alive(t.parents) && id !in t.rows
    ensures !Alive(ExecuteAll(t, statements).parents) && id !in ExecuteAll(t, statements).rows
    decreases |statements|
  {
    if statements != [] {
      GoneForGood(Execute(t, statements[0]), statements[1..], id);
    }
  }

  /** And nothing less: a row can be brought by statements to exactly the rows it may become. */
  lemma RowCanBecomeExactly(t: VersionTable, id: nat, row: Version)
    requires id in t.rows
    ensures (exists statements :: id in ExecuteAll(t, statements).rows && ExecuteAll(t, statements).rows[id] == row)
            <==> Survives(t.rows[id], row)
  {
    if statements :| id in ExecuteAll(t, statements).rows && ExecuteAll(t, statements).rows[id] == row {
      StatementsOnlyAppend(t, statements, id);
    }
    if Survives(t.rows[id], row) {
      var old_ := t.rows[id];
      var lost := old_.(requester := row.requester);
      var first, last := Update(id, lost), Update(id, row);
      var statements := [first, last];
      assert statements[1..] == [last] && statements[1..][1..] == [];
      assert UpdateAllowed(old_, lost) && UpdateAllowed(lost, row);
      var middle := Execute(t, first);
      var end := Execute(middle, last);
      assert ExecuteAll(middle, [last]) == ExecuteAll(end, []);
      assert ExecuteAll(t, statements) == end;
    }
  }

  /** While the parents live, exactly the fresh rows with a fresh number get in and no row gets out. */
  lemma LivingTableTakesExactly(t: VersionTable, id: nat, row: Version)
    requires Alive(t.parents)
    ensures Execute(t, Insert(id, row)).rows == (
              if id !in t.rows && forall k :: k in t.rows ==> t.rows[k].number != row.number
              then t.rows[id := row] else t.rows)
    ensures Execute(t, Delete(id)) == t && Execute(t, Truncate) == t
  {
  }

  /** Once one of the three is gone, its rows can be deleted and none can be added. */
  lemma OrphanedTableOnlyShrinks(t: VersionTable, id: nat, row: Version)
    requires !(t.parents.organization && t.parents.file && t.parents.assessment)
    ensures Execute(t, Insert(id, row)) == t && Execute(t, Delete(id)).rows == t.rows - {id}
  {
  }

  /**
   The review block is said to be written exactly once.  It is fixed, but for a lost reviewer,
   exactly from the moment its decision is set; before that every other column of it may be
   rewritten at will.
   */
  lemma ReviewBlockIsFixedExactlyWhenDecided(before: Version)
    ensures (forall after :: UpdateAllowed(before, after) ==>
               && after.reason == before.reason && after.overrides == before.overrides
               && after.review == before.review.(reviewer := after.review.reviewer))
            <==> before.review.decision.Some?
  {
    if before.review.decision.None? {
      var reason := if before.reason == Some("a") then Some("b") else Some("a");
      assert UpdateAllowed(before, before.(reason := reason));
    }
  }

  // ---------------------------------------------------------------------------
  // Workers, triggers and reviewers
  // ---------------------------------------------------------------------------

  /** The mutable parent row; version number 0 means never assessed. */
  datatype Parent = Parent(versionNumber: nat, verdict: Verdict, review: Review)

  /** A review that has loaded the parent row, whose current version it will decide. */
  datatype Reviewing = Reviewing(loaded: Parent)

  /** A reason may accompany either decision; the request schema asks for one with an override. */
  datatype Decision =
    | Confirm(reviewer: nat, at: nat, remark: Option<string>)
    | Override(reviewer: nat, at: nat, reason: string, overrides: map<string, Designation>)

  /** What last wrote the parent's status since the newest append. */
  datatype StatusFate = AsAppended | Claimed | FailedForNow | Rederived(status: Status)

  /** What last wrote the parent's review columns since the newest append. */
  datatype ReviewFate = Unreviewed | Own(whole: bool) | Late

  /** History since the newest append, which no code reads. */
  datatype Since = Since(failed: bool, overridden: bool, status: StatusFate, review: ReviewFate)

  datatype History = History(
    parent: Parent, versions: map<nat, Version>, workers: map<nat, nat>, reviews: map<nat, Reviewing>,
    since: Since, reviewedAt: set<nat>)

  datatype Event =
    | ReadCurrent(worker: nat)
    | Append(worker: nat, verdict: WorkerVerdict, requester: Option<nat>)
    | Claim(processing: bool)
    | FailForNow(text: string)
    | OpenReview(session: nat)
    | CommitReview(session: nat, decision: Decision)

  const UNTOUCHED := Since(false, false, AsAppended, Unreviewed)

  /** The row as the first trigger creates it. */
  const INITIAL := History(
    Parent(0, Verdict(Pending, Narrative("", false), []), UNREVIEWED), map[], map[], map[], UNTOUCHED, {})

  function Word(d: Decision): string {
    if d.Confirm? then "confirmed" else "overridden"
  }

  function ReviewOf(d: Decision): Review {
    Review(Some(Word(d)), Some(d.reviewer), Some(d.at))
  }

  /** An override must name at least one objective, and only objectives that were answered. */
  predicate Acceptable(d: Decision, v: Version) {
    d.Override? ==>
      d.overrides != map[]
      && forall o :: o in d.overrides ==>
           exists i :: 0 <= i < |v.verdict.answers| && v.verdict.answers[i].objective == o
  }

  function Decided(v: Version, d: Decision): Version {
    v.(review := ReviewOf(d), reason := if d.Override? then Some(d.reason) else d.remark,
       overrides := if d.Override? then d.overrides else map[])
  }

  /** The parent row as the review wants it. */
  function Wanted(loaded: Parent, v: Version, d: Decision): Parent {
    var reviewed := loaded.(review := ReviewOf(d));
    if d.Confirm? then reviewed
    else
      var answers := Effective(v.verdict.answers, d.overrides);
      reviewed.(verdict := loaded.verdict.(
        answers := answers,
        status := if Derived(answers).Some? then Derived(answers).value else loaded.verdict.status))
  }

  /** An UPDATE writes a column only if it differs from the loaded one. */
  function Written<T(==)>(current: T, loaded: T, wanted: T): T {
    if wanted == loaded then current else wanted
  }

  function Merge(current: Parent, loaded: Parent, wanted: Parent): Parent {
    Parent(
      current.versionNumber,
      Verdict(Written(current.verdict.status, loaded.verdict.status, wanted.verdict.status),
              current.verdict.narrative,
              Written(current.verdict.answers, loaded.verdict.answers, wanted.verdict.answers)),
      Review(Written(current.review.decision, loaded.review.decision, wanted.review.decision),
             Written(current.review.reviewer, loaded.review.reviewer, wanted.review.reviewer),
             Written(current.review.at, loaded.review.at, wanted.review.at)))
  }

  /** Every review column that was left unwritten is still as it was loaded. */
  predicate WroteAll(current: Review, loaded: Review, wanted: Review) {
    && (wanted.decision == loaded.decision ==> current.decision == loaded.decision)
    && (wanted.reviewer == loaded.reviewer ==> current.reviewer == loaded.reviewer)
    && (wanted.at == loaded.at ==> current.at == loaded.at)
  }

  function Commit(h: History, r: Reviewing, d: Decision): History
    requires r.loaded.versionNumber in h.versions
  {
    var number := r.loaded.versionNumber;
    var v := h.versions[number];
    var wanted := Wanted(r.loaded, v, d);
    if !Acceptable(d, v) || !UpdateAllowed(v, Decided(v, d)) then h
    else
      h.(versions := h.versions[number := Decided(v, d)],
         parent := Merge(h.parent, r.loaded, wanted),
         reviewedAt := h.reviewedAt + {d.at},
         since := h.since.(
           overridden := h.since.overridden || wanted.verdict.answers != r.loaded.verdict.answers,
           status := if wanted.verdict.status == r.loaded.verdict.status then h.since.status
                     else Rederived(wanted.verdict.status),
           review := if number == h.parent.versionNumber
                     then Own(WroteAll(h.parent.review, r.loaded.review, wanted.review)) else Late))
  }

  function Step(h: History, e: Event): History {
    match e
    case ReadCurrent(worker) => h.(workers := h.workers[worker := h.parent.versionNumber])
    case Append(worker, verdict, requester) =>
      if worker !in h.workers then h
      else
        var number := h.workers[worker] + 1;
        if number in h.versions then h.(workers := h.workers - {worker})
        else
          h.(parent := Parent(number, verdict, UNREVIEWED),
             versions := h.versions[number := Version(number, verdict, requester, UNREVIEWED, None, map[])],
             workers := h.workers - {worker}, since := UNTOUCHED)
    case Claim(processing) =>
      h.(parent := h.parent.(verdict := h.parent.verdict.(status := if processing then Processing else Pending)),
         since := h.since.(status := Claimed))
    case FailForNow(text) =>
      h.(parent := h.parent.(verdict := h.parent.verdict.(status := Failed, narrative := Narrative(text, true))),
         since := h.since.(status := FailedForNow, failed := true))
    case OpenReview(session) =>
      if session in h.reviews || !Reviewable(h.parent.verdict.status) || h.parent.versionNumber !in h.versions
         || h.versions[h.parent.versionNumber].review.decision.Some? then h
      else h.(reviews := h.reviews[session := Reviewing(h.parent)])
    case CommitReview(session, d) =>
      if session !in h.reviews || h.reviews[session].loaded.versionNumber !in h.versions then h
      else Commit(h, h.reviews[session], d).(reviews := h.reviews - {session})
  }

  function Run(h: History, events: seq<Event>): History
    decreases |events|
  {
    if events == [] then h else Run(Step(h, events[0]), events[1..])
  }

  // ---------------------------------------------------------------------------
  // Numbering
  // ---------------------------------------------------------------------------

  /** Numbers 1..n are all there and nothing else, and no worker and no review is ahead. */
  ghost predicate Numbered(h: History) {
    && (forall k :: k in h.versions <==> 1 <= k <= h.parent.versionNumber)
    && (forall k :: k in h.versions ==> h.versions[k].number == k)
    && (forall w :: w in h.workers ==> h.workers[w] <= h.parent.versionNumber)
    && (forall s :: s in h.reviews ==> 1 <= h.reviews[s].loaded.versionNumber <= h.parent.versionNumber)
  }

  lemma CommitKeepsNumbers(h: History, r: Reviewing, d: Decision)
    requires Numbered(h) && r.loaded.versionNumber in h.versions
    ensures Numbered(Commit(h, r, d))
    ensures Commit(h, r, d).parent.versionNumber == h.parent.versionNumber && Commit(h, r, d).reviews == h.reviews
  {
  }

  lemma StepKeepsNumbers(h: History, e: Event)
    requires Numbered(h)
    ensures Numbered(Step(h, e))
  {
    if e.CommitReview? {
      if e.session in h.reviews && h.reviews[e.session].loaded.versionNumber in h.versions {
        CommitKeepsNumbers(h, h.reviews[e.session], e.decision);
      }
    }
  }

  lemma {:induction false} RunKeepsNumbers(h: History, events: seq<Event>)
    requires Numbered(h)
    ensures Numbered(Run(h, events))
    decreases |events|
  {
    if events != [] {
      StepKeepsNumbers(h, events[0]);
      RunKeepsNumbers(Step(h, events[0]), events[1..]);
    }
  }

  /** However workers and reviewers race, the committed versions are numbered 1..n and the parent names n. */
  lemma VersionsAreGapless(events: seq<Event>)
    ensures var h := Run(INITIAL, events);
            && (forall k :: k in h.versions <==> 1 <= k <= |h.versions|)
            && h.parent.versionNumber == |h.versions|
  {
    RunKeepsNumbers(INITIAL, events);
    var h := Run(INITIAL, events);
    CountUpTo(h.parent.versionNumber, h.versions.Keys);
  }

  lemma {:induction false} CountUpTo(n: nat, keys: set<nat>)
    requires forall k :: k in keys <==> 1 <= k <= n
    ensures |keys| == n
  {
    if n > 0 {
      CountUpTo(n - 1, keys - {n});
    } else {
      assert keys == {};
    }
  }

  /** Workers and reviewers send nothing the table refuses: their versions obey the same law. */
  lemma {:induction false} VersionsAreAppendOnly(h: History, events: seq<Event>, k: nat)
    requires k in h.versions
    ensures k in Run(h, events).versions && Survives(h.versions[k], Run(h, events).versions[k])
    decreases |events|
  {
    if events != [] {
      var next := Step(h, events[0]);
      if next.versions[k] != h.versions[k] { AllowedUpdatesSurvive(h.versions[k], next.versions[k]); }
      VersionsAreAppendOnly(next, events[1..], k);
      SurvivalIsTransitive(h.versions[k], next.versions[k], Run(next, events[1..]).versions[k]);
    }
  }

  /** An append commits exactly when nobody appended since its worker read; the loser changes no row. */
  lemma AppendCommitsExactlyWhenCurrent(h: History, worker: nat, verdict: WorkerVerdict, requester: Option<nat>)
    requires Numbered(h) && worker in h.workers
    ensures var h' := Step(h, Append(worker, verdict, requester));
            if h.workers[worker] == h.parent.versionNumber
            then && h'.parent == Parent(h.parent.versionNumber + 1, verdict, UNREVIEWED)
                 && |h'.versions| == |h.versions| + 1
                 && h'.versions == h.versions[h'.parent.versionNumber :=
                                     Version(h'.parent.versionNumber, verdict, requester, UNREVIEWED, None, map[])]
            else h'.parent == h.parent && h'.versions == h.versions
  {
  }

  /** Of two workers that read the same number, whichever appends first wins and the other loses. */
  lemma RaceHasOneWinner(
      h: History, a: nat, b: nat, va: WorkerVerdict, vb: WorkerVerdict, ra: Option<nat>, rb: Option<nat>)
    requires Numbered(h) && a in h.workers && b in h.workers && a != b
    requires h.workers[a] == h.workers[b] == h.parent.versionNumber
    ensures var first := Step(h, Append(a, va, ra));
            var second := Step(first, Append(b, vb, rb));
            second.versions == first.versions && second.parent == first.parent && first.parent.verdict == va
  {
  }

  // ---------------------------------------------------------------------------
  // What each writer writes
  // ---------------------------------------------------------------------------

  /** The four statuses a verdict can have, by the designations among its answers. */
  ghost predicate Reads(answers: seq<Answer>, status: Status) {
    var satisfied := exists a :: a in answers && a.designation == Satisfied;
    var gap := exists a :: a in answers && a.designation == Gap;
    var cannot := exists a :: a in answers && a.designation == CannotAssess;
    match status
    case Sufficient => satisfied && !gap && !cannot
    case Insufficient => gap && !satisfied
    case Unassessable => !satisfied && !gap
    case Partial => satisfied && (gap || cannot)
    case _ => false
  }

  lemma AnswersReadAsDerived(answers: seq<Answer>, status: Status)
    requires answers != []
    ensures Reads(answers, status) <==> Derived(answers) == Some(status)
  {
    forall d
      ensures Designates(answers, d) <==> exists a :: a in answers && a.designation == d
    {
      if Designates(answers, d) {
        var i :| 0 <= i < |answers| && answers[i].designation == d;
        assert answers[i] in answers;
      }
    }
    assert Designates(answers, Satisfied) <==> exists a :: a in answers && a.designation == Satisfied;
    assert Designates(answers, Gap) <==> exists a :: a in answers && a.designation == Gap;
    assert Designates(answers, CannotAssess) <==> exists a :: a in answers && a.designation == CannotAssess;
  }

  /** A review that is acceptable and whose version is undecided when it commits. */
  predicate Commits(h: History, session: nat, d: Decision) {
    && session in h.reviews && h.reviews[session].loaded.versionNumber in h.versions
    && var v := h.versions[h.reviews[session].loaded.versionNumber];
       Acceptable(d, v) && v.review.decision.None?
  }

  /**
   A committed override writes the status that the effective answers read as: sufficient when something
   is shown and nothing is missing or unclear, insufficient when something is missing and nothing is
   shown, unassessable when neither occurs, and partial otherwise.  A status it had loaded anyway
   is left as it is by then, and so are answers the override does not change.
   */
  lemma OverrideWritesWhatTheAnswersSay(h: History, session: nat, d: Decision, status: Status)
    requires Numbered(h) && Commits(h, session, d) && d.Override?
    requires Reads(Effective(h.versions[h.reviews[session].loaded.versionNumber].verdict.answers, d.overrides), status)
    ensures var loaded := h.reviews[session].loaded;
            var answers := Effective(h.versions[loaded.versionNumber].verdict.answers, d.overrides);
            var verdict := Step(h, CommitReview(session, d)).parent.verdict;
            && verdict.status == (if status == loaded.verdict.status then h.parent.verdict.status else status)
            && verdict.answers == (if answers == loaded.verdict.answers then h.parent.verdict.answers else answers)
            && verdict.narrative == h.parent.verdict.narrative
  {
    var loaded := h.reviews[session].loaded;
    var v := h.versions[loaded.versionNumber];
    OverrideWants(loaded, v, d, status);
    CommitMerges(h, session, d);
    MergedColumns(h.parent, loaded, Wanted(loaded, v, d));
  }

  lemma CommitMerges(h: History, session: nat, d: Decision)
    requires Commits(h, session, d)
    ensures var loaded := h.reviews[session].loaded;
            Step(h, CommitReview(session, d)).parent
              == Merge(h.parent, loaded, Wanted(loaded, h.versions[loaded.versionNumber], d))
  {
  }

  lemma MergedColumns(current: Parent, loaded: Parent, wanted: Parent)
    ensures var verdict := Merge(current, loaded, wanted).verdict;
            && verdict.status == (if wanted.verdict.status == loaded.verdict.status then current.verdict.status
                                  else wanted.verdict.status)
            && verdict.answers == (if wanted.verdict.answers == loaded.verdict.answers then current.verdict.answers
                                   else wanted.verdict.answers)
            && verdict.narrative == current.verdict.narrative
  {
  }

  lemma OverrideWants(loaded: Parent, v: Version, d: Decision, status: Status)
    requires d.Override? && Acceptable(d, v) && Reads(Effective(v.verdict.answers, d.overrides), status)
    ensures Wanted(loaded, v, d).verdict
         == loaded.verdict.(answers := Effective(v.verdict.answers, d.overrides), status := status)
  {
    var answers := Effective(v.verdict.answers, d.overrides);
    var o :| o in d.overrides;
    assert answers != [];
    AnswersReadAsDerived(answers, status);
  }

  /** One of the four is always read: an acceptable override has an answer to derive from. */
  lemma SomeStatusIsRead(v: Version, d: Decision) returns (status: Status)
    requires d.Override? && Acceptable(d, v)
    ensures Reads(Effective(v.verdict.answers, d.overrides), status) && Reviewable(status)
  {
    var answers := Effective(v.verdict.answers, d.overrides);
    var o :| o in d.overrides;
    assert answers != [];
    status := Derived(answers).value;
    AnswersReadAsDerived(answers, status);
  }

  /**
   What a committed review records: the decision on the frozen row and on the parent, whose verdict
   a confirmation keeps.
   */
  lemma CommittedReviewIsRecorded(h: History, session: nat, d: Decision)
    requires Numbered(h) && Commits(h, session, d)
    ensures var loaded := h.reviews[session].loaded;
            var v, h' := h.versions[loaded.versionNumber], Step(h, CommitReview(session, d));
            var decision := if d.Confirm? then "confirmed" else "overridden";
            && h'.versions == h.versions[loaded.versionNumber :=
                                Version(v.number, v.verdict, v.requester,
                                        Review(Some(decision), Some(d.reviewer), Some(d.at)),
                                        if d.Confirm? then d.remark else Some(d.reason),
                                        if d.Confirm? then map[] else d.overrides)]
            && h'.parent.versionNumber == h.parent.versionNumber
            && h'.parent.review == Review(
                 if loaded.review.decision == Some(decision) then h.parent.review.decision else Some(decision),
                 if loaded.review.reviewer == Some(d.reviewer) then h.parent.review.reviewer else Some(d.reviewer),
                 if loaded.review.at == Some(d.at) then h.parent.review.at else Some(d.at))
            && (d.Confirm? ==> h'.parent.verdict == h.parent.verdict)
            && session !in h'.reviews
  {
  }

  /** A review opens on the newest version when its verdict is one to confirm and nobody has decided it. */
  lemma ReviewOpensExactlyWhen(h: History, session: nat)
    requires Numbered(h) && session !in h.reviews
    ensures var n, h' := h.parent.versionNumber, Step(h, OpenReview(session));
            && (session in h'.reviews <==>
                  n > 0 && h.parent.verdict.status in {Sufficient, Partial, Insufficient, Unassessable}
                  && h.versions[n].review.decision.None?)
            && (session in h'.reviews ==> h'.reviews[session].loaded == h.parent)
            && h'.parent == h.parent && h'.versions == h.versions
  {
  }

  /** An override needs an objective to disagree with, and may name answered ones only. */
  lemma AcceptableExactlyWhen(d: Decision, v: Version)
    ensures Acceptable(d, v) <==>
            || d.Confirm?
            || (d.overrides.Keys != {} && d.overrides.Keys <= set a | a in v.verdict.answers :: a.objective)
  {
    if d.Override? {
      assert d.overrides.Keys == {} <==> d.overrides == map[];
      var named := set a | a in v.verdict.answers :: a.objective;
      if Acceptable(d, v) {
        forall o | o in d.overrides
          ensures o in named
        {
          var i :| 0 <= i < |v.verdict.answers| && v.verdict.answers[i].objective == o;
          assert v.verdict.answers[i] in v.verdict.answers;
        }
      }
    }
  }

  /** Events that read. */
  predicate Reading(events: seq<Event>) {
    forall e :: e in events ==> e.ReadCurrent? || e.OpenReview?
  }

  lemma {:induction false} ReadingChangesNoRow(h: History, events: seq<Event>)
    requires Reading(events)
    ensures Run(h, events).parent == h.parent && Run(h, events).versions == h.versions
    decreases |events|
  {
    if events != [] {
      assert events[0] in events && forall e :: e in events[1..] ==> e in events;
      ReadingChangesNoRow(Step(h, events[0]), events[1..]);
    }
  }

  /** A claim or a transient error shows on the parent, in the columns it writes, until the next writer. */
  lemma ClaimsAndErrorsShow(h: History, processing: bool, text: string, events: seq<Event>)
    requires Reading(events)
    ensures var claimed := Run(Step(h, Claim(processing)), events);
            && claimed.parent == Parent(
                 h.parent.versionNumber,
                 Verdict(if processing then Processing else Pending,
                         h.parent.verdict.narrative, h.parent.verdict.answers),
                 h.parent.review)
            && claimed.versions == h.versions
    ensures var failed := Run(Step(h, FailForNow(text)), events);
            && failed.parent == Parent(
                 h.parent.versionNumber,
                 Verdict(Failed, Narrative(text, true), h.parent.verdict.answers), h.parent.review)
            && failed.versions == h.versions
  {
    ReadingChangesNoRow(Step(h, Claim(processing)), events);
    ReadingChangesNoRow(Step(h, FailForNow(text)), events);
  }

  // ---------------------------------------------------------------------------
  // Does the parent mirror its newest version?
  // ---------------------------------------------------------------------------

  predicate HasHumanAnswer(answers: seq<Answer>) {
    exists i :: 0 <= i < |answers| && answers[i].byHuman
  }

  /** What the history since the newest append says about the parent's verdict columns. */
  ghost predicate VerdictAsTold(h: History) {
    h.parent.versionNumber in h.versions ==>
      var newest := h.versions[h.parent.versionNumber].verdict;
      && (if h.since.failed then h.parent.verdict.narrative.retryable
          else h.parent.verdict.narrative == newest.narrative)
      && (if h.since.overridden then HasHumanAnswer(h.parent.verdict.answers)
          else h.parent.verdict.answers == newest.answers)
      && match h.since.status
         case AsAppended => h.parent.verdict.status == newest.status
         case Claimed => h.parent.verdict.status.Pending? || h.parent.verdict.status.Processing?
         case FailedForNow => h.since.failed
         case Rederived(status) => h.parent.verdict.status == status
  }

  /** An acceptable override leaves at least one answer marked. */
  lemma OverridesLeaveAMark(v: Version, d: Decision)
    requires d.Override? && Acceptable(d, v)
    ensures HasHumanAnswer(Effective(v.verdict.answers, d.overrides))
  {
    var o :| o in d.overrides;
    var i :| 0 <= i < |v.verdict.answers| && v.verdict.answers[i].objective == o;
    assert Effective(v.verdict.answers, d.overrides)[i].byHuman;
  }

  /** What a committed review leaves in the verdict columns. */
  lemma MergedVerdict(current: Parent, loaded: Parent, v: Version, d: Decision)
    requires Acceptable(d, v)
    ensures var wanted := Wanted(loaded, v, d);
            var merged := Merge(current, loaded, wanted).verdict;
            && merged.narrative == current.verdict.narrative
            && (if wanted.verdict.answers == loaded.verdict.answers then merged.answers == current.verdict.answers
                else HasHumanAnswer(merged.answers))
            && merged.status == (if wanted.verdict.status == loaded.verdict.status then current.verdict.status
                                 else wanted.verdict.status)
  {
    if d.Override? { OverridesLeaveAMark(v, d); }
  }

  lemma CommitTellsTheVerdict(h: History, r: Reviewing, d: Decision)
    requires Numbered(h) && VerdictAsTold(h) && r.loaded.versionNumber in h.versions
    ensures VerdictAsTold(Commit(h, r, d))
  {
    var v := h.versions[r.loaded.versionNumber];
    if Acceptable(d, v) {
      MergedVerdict(h.parent, r.loaded, v, d);
      var h' := Commit(h, r, d);
      var n := h.parent.versionNumber;
      assert n in h.versions ==> h'.versions[n].verdict == h.versions[n].verdict;
      assert h'.parent == h.parent || h'.parent == Merge(h.parent, r.loaded, Wanted(r.loaded, v, d));
    }
  }

  lemma StepTellsTheVerdict(h: History, e: Event)
    requires Numbered(h) && VerdictAsTold(h)
    ensures VerdictAsTold(Step(h, e))
  {
    if e.CommitReview? && e.session in h.reviews && h.reviews[e.session].loaded.versionNumber in h.versions {
      CommitTellsTheVerdict(h, h.reviews[e.session], e.decision);
    }
  }

  lemma {:induction false} RunTellsTheVerdict(h: History, events: seq<Event>)
    requires Numbered(h) && VerdictAsTold(h)
    ensures VerdictAsTold(Run(h, events))
    decreases |events|
  {
    if events != [] {
      StepTellsTheVerdict(h, events[0]);
      StepKeepsNumbers(h, events[0]);
      RunTellsTheVerdict(Step(h, events[0]), events[1..]);
    }
  }

  /**
   In every run, the parent's status, findings and answers are those of its newest version exactly
   when, since that version was appended, no transient error was recorded, no review of whatever
   version overrode answers it had loaded, and the last write of the status alone, if there was
   one, was a review that derived the very status of that version rather than a claim.
   */
  lemma VerdictMirrorsExactlyWhen(events: seq<Event>)
    requires Run(INITIAL, events).parent.versionNumber > 0
    ensures var h := Run(INITIAL, events);
            h.parent.versionNumber in h.versions &&
            var newest := h.versions[h.parent.versionNumber].verdict;
            h.parent.verdict == newest <==>
            !h.since.failed && !h.since.overridden && h.since.status in {AsAppended, Rederived(newest.status)}
  {
    RunKeepsNumbers(INITIAL, events);
    RunTellsTheVerdict(INITIAL, events);
    var h := Run(INITIAL, events);
    var newest := h.versions[h.parent.versionNumber].verdict;
    assert FromTheWorker(newest);
  }

  /** Every review time on record is that of a committed review. */
  ghost predicate TimesOnRecord(h: History) {
    && (forall k :: k in h.versions ==> OnRecord(h, h.versions[k].review.at))
    && (forall s :: s in h.reviews ==> OnRecord(h, h.reviews[s].loaded.review.at))
    && OnRecord(h, h.parent.review.at)
  }

  predicate OnRecord(h: History, at: Option<nat>) {
    at.Some? ==> at.value in h.reviewedAt
  }

  /** No two reviews are decided at the same instant. */
  predicate DistinctTimes(h: History, events: seq<Event>)
    decreases |events|
  {
    events != [] ==>
      && (events[0].CommitReview? ==> events[0].decision.at !in h.reviewedAt)
      && DistinctTimes(Step(h, events[0]), events[1..])
  }

  /** What the history since the newest append says about the parent's review columns, whatever the clock. */
  ghost predicate ReviewAsTold(h: History) {
    h.parent.versionNumber in h.versions ==>
      var newest := h.versions[h.parent.versionNumber].review;
      match h.since.review
      case Unreviewed => h.parent.review == newest == UNREVIEWED
      case Own(whole) => newest.decision.Some? && (whole <==> h.parent.review == newest)
      case Late => true
  }

  /** And when no two reviews share their time. */
  ghost predicate LateShows(h: History) {
    h.parent.versionNumber in h.versions && h.since.review.Late? ==>
      h.parent.review.at != h.versions[h.parent.versionNumber].review.at
  }

  lemma CommitTellsTheReview(h: History, r: Reviewing, d: Decision)
    requires Numbered(h) && ReviewAsTold(h) && r.loaded.versionNumber in h.versions
    ensures ReviewAsTold(Commit(h, r, d))
  {
  }

  lemma CommitShowsLate(h: History, r: Reviewing, d: Decision)
    requires Numbered(h) && TimesOnRecord(h) && LateShows(h) && r.loaded.versionNumber in h.versions
    requires OnRecord(h, r.loaded.review.at) && d.at !in h.reviewedAt
    ensures LateShows(Commit(h, r, d))
  {
    var newest := h.parent.versionNumber;
    assert newest in h.versions ==> OnRecord(h, h.versions[newest].review.at);
  }

  lemma StepTellsTheReview(h: History, e: Event)
    requires Numbered(h) && ReviewAsTold(h)
    ensures ReviewAsTold(Step(h, e))
  {
    if e.CommitReview? && e.session in h.reviews && h.reviews[e.session].loaded.versionNumber in h.versions {
      CommitTellsTheReview(h, h.reviews[e.session], e.decision);
    }
  }

  lemma StepShowsLate(h: History, e: Event)
    requires Numbered(h) && TimesOnRecord(h) && LateShows(h)
    requires e.CommitReview? ==> e.decision.at !in h.reviewedAt
    ensures TimesOnRecord(Step(h, e)) && LateShows(Step(h, e))
  {
    if e.CommitReview? && e.session in h.reviews && h.reviews[e.session].loaded.versionNumber in h.versions {
      CommitShowsLate(h, h.reviews[e.session], e.decision);
    }
  }

  lemma {:induction false} RunTellsTheReview(h: History, events: seq<Event>)
    requires Numbered(h) && ReviewAsTold(h)
    ensures ReviewAsTold(Run(h, events))
    ensures TimesOnRecord(h) && LateShows(h) && DistinctTimes(h, events) ==> LateShows(Run(h, events))
    decreases |events|
  {
    if events != [] {
      StepTellsTheReview(h, events[0]);
      if TimesOnRecord(h) && LateShows(h) && DistinctTimes(h, events) { StepShowsLate(h, events[0]); }
      StepKeepsNumbers(h, events[0]);
      RunTellsTheReview(Step(h, events[0]), events[1..]);
    }
  }

  /**
   In every run, unless the last review since the newest append was of an earlier version, the
   parent shows its newest version's review exactly when nobody reviewed since then, or the last
   to do so found every column it left unwritten as loaded.  A last review of an earlier version
   shows too, when no two reviews are decided at the same instant.
   */
  lemma ReviewMirrorsExactlyWhen(events: seq<Event>)
    requires Run(INITIAL, events).parent.versionNumber > 0
    ensures var h := Run(INITIAL, events);
            && h.parent.versionNumber in h.versions
            && var mirrors := h.parent.review == h.versions[h.parent.versionNumber].review;
               && (!h.since.review.Late? ==> (mirrors <==> h.since.review in {Unreviewed, Own(true)}))
               && (DistinctTimes(INITIAL, events) ==> (mirrors <==> h.since.review in {Unreviewed, Own(true)}))
  {
    RunKeepsNumbers(INITIAL, events);
    RunTellsTheReview(INITIAL, events);
  }

  /** No review of an earlier version commits in these events. */
  predicate NoLateReview(h: History, events: seq<Event>)
    decreases |events|
  {
    events != [] ==>
      && (events[0].CommitReview? && events[0].session in h.reviews ==>
            h.reviews[events[0].session].loaded.versionNumber == h.parent.versionNumber)
      && NoLateReview(Step(h, events[0]), events[1..])
  }

  /** The parent's and the loaded review columns hold no trace of an earlier version. */
  ghost predicate NothingLate(h: History) {
    && !h.since.review.Late? && h.since.review != Own(false)
    && (forall s :: s in h.reviews && h.reviews[s].loaded.versionNumber == h.parent.versionNumber ==>
          h.reviews[s].loaded.review in {UNREVIEWED, h.parent.review})
    && (h.since.review.Unreviewed? ==> h.parent.versionNumber in h.versions ==> h.parent.review == UNREVIEWED)
  }

  /** So as long as no review commits late, the parent always shows its newest version's review. */
  lemma {:induction false} WithoutLateReviewsTheReviewMirrors(h: History, events: seq<Event>)
    requires Numbered(h) && ReviewAsTold(h) && NothingLate(h) && NoLateReview(h, events)
    ensures var h' := Run(h, events);
            h'.parent.versionNumber in h'.versions ==> h'.parent.review == h'.versions[h'.parent.versionNumber].review
    decreases |events|
  {
    if events != [] {
      StepTellsTheReview(h, events[0]);
      StepStaysPunctual(h, events[0]);
      StepKeepsNumbers(h, events[0]);
      WithoutLateReviewsTheReviewMirrors(Step(h, events[0]), events[1..]);
    }
  }

  lemma StepStaysPunctual(h: History, e: Event)
    requires Numbered(h) && ReviewAsTold(h) && NothingLate(h)
    requires e.CommitReview? && e.session in h.reviews ==>
               h.reviews[e.session].loaded.versionNumber == h.parent.versionNumber
    ensures NothingLate(Step(h, e))
  {
  }

  /**
   A review commits exactly when it is acceptable and its version is undecided by then (or decided
   by this very review), however many have loaded it and whatever was appended in between.
   */
  lemma ReviewCommitsExactlyWhenUndecided(h: History, session: nat, d: Decision)
    requires Numbered(h) && session in h.reviews
    ensures var number := h.reviews[session].loaded.versionNumber;
            && number in h.versions
            && var h' := Step(h, CommitReview(session, d));
               if Acceptable(d, h.versions[number])
                  && (h.versions[number].review.decision.None? || h.versions[number] == Decided(h.versions[number], d))
               then h'.versions == h.versions[number := Decided(h.versions[number], d)]
               else h'.versions == h.versions && h'.parent == h.parent
  {
  }

  /**
   An old review does reach the parent: one that loaded an unreviewed version and commits after
   the next append leaves its decision on the parent of a version nobody has reviewed.
   */
  lemma LateReviewReachesTheParent(h: History, session: nat, worker: nat, verdict: WorkerVerdict, d: Decision)
    requires Numbered(h) && d.Confirm?
    requires session in h.reviews && h.reviews[session].loaded == h.parent && h.parent.review == UNREVIEWED
    requires h.versions[h.parent.versionNumber].review.decision.None?
    requires worker in h.workers && h.workers[worker] == h.parent.versionNumber
    ensures var h' := Step(Step(h, Append(worker, verdict, None)), CommitReview(session, d));
            var n := h.parent.versionNumber + 1;
            && h'.parent == Parent(n, verdict, ReviewOf(d))
            && n in h'.versions && h'.versions[n].review == UNREVIEWED
  {
  }

  /** The newest version's own review repairs what a late one left, if the parent is as it loaded it. */
  lemma OwnReviewRepairsTheMirror(h: History, session: nat, d: Decision)
    requires Numbered(h) && d.Confirm? && session in h.reviews && h.reviews[session].loaded == h.parent
    requires h.versions[h.parent.versionNumber].review.decision.None?
    ensures var h' := Step(h, CommitReview(session, d));
            h.parent.versionNumber in h'.versions && h'.parent.review == h'.versions[h.parent.versionNumber].review
  {
  }

  const FINDING: WorkerVerdict := Verdict(Partial, Narrative("", false), [])

  /** A first version that a session has loaded and a worker is about to replace. */
  const OPENING := [ReadCurrent(0), Append(0, FINDING, None), OpenReview(7), ReadCurrent(0)]

  lemma VersionUnderReview() returns (h: History)
    ensures h == Run(INITIAL, OPENING) && Numbered(h)
    ensures h.parent == Parent(1, FINDING, UNREVIEWED) && h.versions == map[1 := FirstVersion()]
    ensures h.reviews == map[7 := Reviewing(h.parent)] && h.workers == map[0 := 1]
  {
    var h1 := Step(INITIAL, OPENING[0]);
    var h2 := Step(h1, OPENING[1]);
    var h3 := Step(h2, OPENING[2]);
    h := Step(h3, OPENING[3]);
    RunFour(INITIAL, OPENING);
  }

  function FirstVersion(): Version {
    Version(1, FINDING, None, UNREVIEWED, None, map[])
  }

  /** And it happens in a run from the start. */
  lemma LateReviewHappens() returns (events: seq<Event>)
    ensures var h := Run(INITIAL, events);
            && h.parent.versionNumber == 2 && 2 in h.versions
            && h.parent.review.decision == Some("confirmed") && h.versions[2].review == UNREVIEWED
  {
    var d := Confirm(3, 11, None);
    var after := [Append(0, FINDING, None), CommitReview(7, d)];
    events := OPENING + after;
    var h := VersionUnderReview();
    RunSplits(INITIAL, OPENING, after);
    LateReviewReachesTheParent(h, 7, 0, FINDING, d);
    RunTwo(h, after);
  }

  /** A late review decided like the newest version's own, at the same instant, leaves what that one left. */
  lemma AlikeReviewsAreOne(h: History, own: nat, late: nat, d: Decision)
    requires Numbered(h) && d.Confirm? && own != late && own in h.reviews && late in h.reviews
    requires h.reviews[own].loaded == h.parent && h.parent.review == UNREVIEWED
    requires h.reviews[late].loaded.versionNumber < h.parent.versionNumber
    requires h.reviews[late].loaded.review == UNREVIEWED
    requires h.versions[h.reviews[late].loaded.versionNumber].review.decision.None?
    requires h.versions[h.parent.versionNumber].review.decision.None?
    ensures var n := h.parent.versionNumber;
            var h' := Step(Step(h, CommitReview(own, d)), CommitReview(late, d));
            && h'.since.review.Late? && h'.parent.versionNumber == n && n in h'.versions
            && h'.parent.review == h'.versions[n].review
  {
    var first := Step(h, CommitReview(own, d));
    assert first.parent.review == ReviewOf(d) == first.versions[h.parent.versionNumber].review;
  }

  /** A second version that another session has loaded, with the first session still open. */
  lemma TwoVersionsUnderReview() returns (h: History)
    ensures h == Run(INITIAL, OPENING + [Append(0, FINDING, None), OpenReview(8)]) && Numbered(h)
    ensures h.parent == Parent(2, FINDING, UNREVIEWED) && {1, 2} <= h.versions.Keys
    ensures h.versions[1].review == h.versions[2].review == UNREVIEWED
    ensures h.reviews == map[7 := Reviewing(Parent(1, FINDING, UNREVIEWED)), 8 := Reviewing(h.parent)]
  {
    var more := [Append(0, FINDING, None), OpenReview(8)];
    var first := VersionUnderReview();
    RunSplits(INITIAL, OPENING, more);
    RunTwo(first, more);
    h := Step(Step(first, more[0]), more[1]);
    RunKeepsNumbers(INITIAL, OPENING + more);
  }

  /** Such reviews occur: without distinct times a late review can go unseen. */
  lemma SameInstantHidesALateReview() returns (events: seq<Event>)
    ensures var h := Run(INITIAL, events);
            && h.since.review.Late? && h.parent.versionNumber == 2 && 2 in h.versions
            && h.parent.review == h.versions[2].review
  {
    var d := Confirm(3, 11, None);
    var before, after := OPENING + [Append(0, FINDING, None), OpenReview(8)], [CommitReview(8, d), CommitReview(7, d)];
    events := before + after;
    var h := TwoVersionsUnderReview();
    RunSplits(INITIAL, before, after);
    RunTwo(h, after);
    AlikeReviewsAreOne(h, 8, 7, d);
  }

  lemma {:induction false} RunSplits(h: History, before: seq<Event>, after: seq<Event>)
    ensures Run(h, before + after) == Run(Run(h, before), after)
    decreases |before|
  {
    if before == [] {
      assert before + after == after;
    } else {
      assert (before + after)[1..] == before[1..] + after;
      RunSplits(Step(h, before[0]), before[1..], after);
    }
  }

  lemma RunTwo(h: History, events: seq<Event>)
    requires |events| == 2
    ensures Run(h, events) == Step(Step(h, events[0]), events[1])
  {
    assert events[1..][1..] == [];
    assert Run(Step(h, events[0]), events[1..]) == Run(Step(Step(h, events[0]), events[1]), []);
  }

  lemma RunFour(h: History, events: seq<Event>)
    requires |events| == 4
    ensures Run(h, events) == Step(Step(Step(Step(h, events[0]), events[1]), events[2]), events[3])
  {
    assert events == events[..2] + events[2..];
    RunSplits(h, events[..2], events[2..]);
    RunTwo(h, events[..2]);
    RunTwo(Run(h, events[..2]), events[2..]);
  }
}
