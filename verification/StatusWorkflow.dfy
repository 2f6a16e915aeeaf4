/**
 The implementation-status workflow and the re-scope staleness rule of backend/models.py.
 */
module StatusWorkflow {
  import opened Options

  datatype Status =
    | NotStarted | InProgress | Implemented | ReadyForReview | Monitored | NotApplicable | AtRisk | Deferred

  function AllowedNext(s: Status): seq<Status> {
    match s
    case NotStarted => [InProgress, NotApplicable, Deferred]
    case InProgress => [Implemented, NotStarted, AtRisk, Deferred]
    case Implemented => [ReadyForReview, InProgress, AtRisk]
    case ReadyForReview => [Monitored, Implemented, InProgress, AtRisk]
    case Monitored => [InProgress, ReadyForReview, AtRisk, NotApplicable]
    case NotApplicable => [NotStarted]
    case AtRisk => [InProgress, Implemented, Deferred, NotApplicable]
    case Deferred => [NotStarted, InProgress, NotApplicable]
  }

  /** A stored status may be absent, or a legacy text that is not a status any more. */
  datatype Stored = Unset | Legacy(text: string) | Known(status: Status)

  /** is_valid_status_transition; a proposed text that is no status at all is Legacy. */
  predicate ValidTransition(current: Stored, proposed: Stored, strict: bool) {
    && proposed.Known?
    && (current.Known? && strict && current.status != proposed.status ==>
          proposed.status in AllowedNext(current.status))
  }

  /** A run of strict transitions. */
  ghost predicate StrictRun(run: seq<Status>) {
    forall k :: 0 <= k < |run| - 1 ==> ValidTransition(Known(run[k]), Known(run[k + 1]), true)
  }

  /** Strict moves that a status is away from being monitored. */
  function Distance(s: Status): nat {
    match s
    case Monitored => 0
    case ReadyForReview => 1
    case Implemented => 2
    case InProgress => 3
    case AtRisk => 3
    case NotStarted => 4
    case Deferred => 4
    case NotApplicable => 5
  }

  /** No strict run is a short cut to monitored: one of k moves starts at most k moves away. */
  lemma {:induction false} NoShortCutToMonitored(run: seq<Status>)
    requires StrictRun(run) && |run| > 0 && run[|run| - 1] == Monitored
    ensures Distance(run[0]) <= |run| - 1
  {
    if |run| > 1 {
      var rest := run[1..];
      forall k | 0 <= k < |rest| - 1
        ensures ValidTransition(Known(rest[k]), Known(rest[k + 1]), true)
      {
        assert ValidTransition(Known(run[k + 1]), Known(run[k + 1 + 1]), true);
      }
      assert ValidTransition(Known(run[0]), Known(run[0 + 1]), true);
      NoShortCutToMonitored(rest);
    }
  }

  /** And the distance is reached, from every status, so none is a dead end. */
  lemma {:induction false} MonitoredIsReachable(s: Status) returns (run: seq<Status>)
    ensures StrictRun(run) && |run| == Distance(s) + 1 && run[0] == s && run[|run| - 1] == Monitored
    decreases Distance(s)
  {
    if s == Monitored {
      run := [s];
    } else {
      var next := match s
        case ReadyForReview => Monitored
        case Implemented => ReadyForReview
        case InProgress => Implemented
        case AtRisk => Implemented
        case NotStarted => InProgress
        case Deferred => InProgress
        case NotApplicable => NotStarted;
      var rest := MonitoredIsReachable(next);
      run := [s] + rest;
    }
  }

  /** Nothing becomes monitored unreviewed: a strict run into monitored was ready for review just before it arrived. */
  lemma {:induction false} MonitoredWasReviewed(run: seq<Status>) returns (k: nat)
    requires StrictRun(run) && |run| > 0 && run[0] != Monitored && run[|run| - 1] == Monitored
    ensures k + 1 < |run| && run[k] == ReadyForReview && run[k + 1] == Monitored
  {
    var last := |run| - 2;
    assert ValidTransition(Known(run[last]), Known(run[last + 1]), true);
    if run[last] == Monitored {
      assert StrictRun(run[..|run| - 1]);
      k := MonitoredWasReviewed(run[..|run| - 1]);
    } else {
      k := last;
    }
  }

  /** The special states cannot be set at any time under strict rules: these pairs are exactly the exceptions. */
  lemma SpecialStatesAreNotAlwaysAllowed(s: Status)
    ensures ValidTransition(Known(s), Known(AtRisk), true) <==> s !in [NotStarted, NotApplicable, Deferred]
    ensures ValidTransition(Known(s), Known(NotApplicable), true) <==> s !in [InProgress, Implemented, ReadyForReview]
    ensures ValidTransition(Known(s), Known(Deferred), true) <==>
            s !in [Implemented, ReadyForReview, Monitored, NotApplicable]
  {
  }

  /** From which states exactly the ordinary ones can be set under strict rules. */
  lemma OrdinaryStatesAreSetFrom(s: Status)
    ensures ValidTransition(Known(s), Known(NotStarted), true) <==>
            s in [NotStarted, InProgress, NotApplicable, Deferred]
    ensures ValidTransition(Known(s), Known(InProgress), true) <==> s != NotApplicable
    ensures ValidTransition(Known(s), Known(Implemented), true) <==>
            s in [Implemented, InProgress, ReadyForReview, AtRisk]
    ensures ValidTransition(Known(s), Known(ReadyForReview), true) <==> s in [ReadyForReview, Implemented, Monitored]
    ensures ValidTransition(Known(s), Known(Monitored), true) <==> s in [Monitored, ReadyForReview]
  {
  }

  /** Only a known status can be set, and any of them can without strict rules or over an unset or legacy one. */
  lemma LooseRulesAllowEveryKnownStatus(current: Stored, proposed: Stored, strict: bool)
    ensures !proposed.Known? ==> !ValidTransition(current, proposed, strict)
    ensures proposed.Known? && (!strict || !current.Known? || current == proposed) ==>
              ValidTransition(current, proposed, strict)
  {
  }

  // ---------------------------------------------------------------------------
  // Re-scope staleness
  // ---------------------------------------------------------------------------

  datatype Scoped = Scoped(
    selected: bool, status: Option<string>, maturity: Option<string>,
    scopeRestoredAt: Option<nat>, assessmentRecordedAt: Option<nat>)

  predicate Blank(text: Option<string>) {
    text.None? || text.value == ""
  }

  /** assessment_is_stale. */
  predicate IsStale(c: Scoped) {
    if !c.selected || c.scopeRestoredAt.None? then false
    else if Blank(c.status) && Blank(c.maturity) then false
    else c.assessmentRecordedAt.None? || c.assessmentRecordedAt.value < c.scopeRestoredAt.value
  }

  /** The stamped writes: a flip of selected to true, a flip to false, a change of status or maturity. */
  datatype Write =
    Select(at: nat) | Deselect(at: nat) | Record(at: nat, status: Option<string>, maturity: Option<string>)

  function Apply(c: Scoped, w: Write): Scoped {
    match w
    case Select(at) => if c.selected then c else c.(selected := true, scopeRestoredAt := Some(at))
    case Deselect(_) => c.(selected := false)
    case Record(at, status, maturity) => c.(status := status, maturity := maturity, assessmentRecordedAt := Some(at))
  }

  function ApplyAll(c: Scoped, writes: seq<Write>): Scoped {
    if writes == [] then c else Apply(ApplyAll(c, writes[..|writes| - 1]), writes[|writes| - 1])
  }

  const FRESH := Scoped(false, None, None, None, None)

  predicate Toggles(w: Write) {
    w.Select? || w.Deselect?
  }

  /** A control is in scope exactly when the last write that toggled it selected it. */
  lemma {:induction false} ScopeIsTheLastToggle(writes: seq<Write>, k: nat)
    requires forall j :: k <= j < |writes| ==> !Toggles(writes[j])
    requires k <= |writes| && (k > 0 ==> Toggles(writes[k - 1]))
    ensures ApplyAll(FRESH, writes).selected <==> k > 0 && writes[k - 1].Select?
  {
    if |writes| > k { ScopeIsTheLastToggle(writes[..|writes| - 1], k); }
  }

  /** Its status, maturity and recording time are those of the last recording. */
  lemma {:induction false} AssessmentIsTheLastRecording(writes: seq<Write>, k: nat)
    requires forall j :: k <= j < |writes| ==> !writes[j].Record?
    requires k <= |writes| && (k > 0 ==> writes[k - 1].Record?)
    ensures var c := ApplyAll(FRESH, writes);
            if k == 0 then c.status.None? && c.maturity.None? && c.assessmentRecordedAt.None?
            else
              && c.status == writes[k - 1].status && c.maturity == writes[k - 1].maturity
              && c.assessmentRecordedAt == Some(writes[k - 1].at)
  {
    if |writes| > k { AssessmentIsTheLastRecording(writes[..|writes| - 1], k); }
  }

  /** A selection puts it into scope exactly when the last toggle before was none or took it out. */
  lemma RestoresExactlyWhen(writes: seq<Write>, k: nat, j: nat)
    requires k < |writes| && writes[k].Select? && j <= k && (j > 0 ==> Toggles(writes[j - 1]))
    requires forall i :: j <= i < k ==> !Toggles(writes[i])
    ensures Restores(writes, k) <==> j == 0 || writes[j - 1].Deselect?
  {
    ScopeIsTheLastToggle(writes[..k], j);
  }

  /** The restore stamp is that of the last write that put it into scope. */
  lemma {:induction false} StampIsTheLastRestore(writes: seq<Write>, k: nat)
    requires forall j :: k <= j < |writes| ==> !Restores(writes, j)
    requires k <= |writes| && (k > 0 ==> Restores(writes, k - 1))
    ensures ApplyAll(FRESH, writes).scopeRestoredAt == if k == 0 then None else Some(writes[k - 1].at)
  {
    var n := |writes| - 1;
    if |writes| > k {
      assert forall j :: 0 <= j < n ==> writes[..n][..j] == writes[..j];
      assert forall j :: 0 <= j < n ==> (Restores(writes[..n], j) <==> Restores(writes, j));
      StampIsTheLastRestore(writes[..n], k);
      assert !Restores(writes, n);
    } else if k > 0 {
      assert writes[..n] == writes[..k - 1];
    }
  }

  ghost predicate Chronological(writes: seq<Write>) {
    forall j, k :: 0 <= j < k < |writes| ==> writes[j].at <= writes[k].at
  }

  /** Write k put the control back into scope. */
  predicate Restores(writes: seq<Write>, k: nat)
    requires k < |writes|
  {
    writes[k].Select? && !ApplyAll(FRESH, writes[..k]).selected
  }

  /** Over a whole history: some restore of the scope has no later recording. */
  ghost predicate RestoredSinceRecorded(writes: seq<Write>) {
    exists k :: 0 <= k < |writes| && Restores(writes, k) && forall j :: k < j < |writes| ==> !writes[j].Record?
  }

  lemma RestoreEndsIt(writes: seq<Write>, n: nat)
    requires |writes| == n + 1 && Restores(writes, n)
    ensures RestoredSinceRecorded(writes)
  {
  }

  lemma RecordingEndsIt(writes: seq<Write>, n: nat)
    requires |writes| == n + 1 && writes[n].Record?
    ensures !RestoredSinceRecorded(writes)
  {
  }

  lemma OtherWritesKeepIt(writes: seq<Write>, n: nat)
    requires |writes| == n + 1 && !writes[n].Record? && !Restores(writes, n)
    ensures RestoredSinceRecorded(writes) <==> RestoredSinceRecorded(writes[..n])
  {
    var before := writes[..n];
    assert forall k :: 0 <= k < n ==> before[..k] == writes[..k];
    if RestoredSinceRecorded(writes) {
      var k :| 0 <= k < |writes| && Restores(writes, k) && forall j :: k < j < |writes| ==> !writes[j].Record?;
      assert Restores(before, k);
    }
    if RestoredSinceRecorded(before) {
      var k :| 0 <= k < n && Restores(before, k) && forall j :: k < j < n ==> !before[j].Record?;
      assert Restores(writes, k) && forall j :: k < j < |writes| ==> j == n || writes[j] == before[j];
    }
  }

  ghost predicate StampedBy(writes: seq<Write>, stamp: Option<nat>) {
    stamp.Some? ==> exists k :: 0 <= k < |writes| && writes[k].at == stamp.value
  }

  ghost predicate StampsDescribe(writes: seq<Write>, c: Scoped) {
    && StampedBy(writes, c.scopeRestoredAt) && StampedBy(writes, c.assessmentRecordedAt)
    && (RestoredSinceRecorded(writes) ==>
          c.scopeRestoredAt.Some? &&
          (c.assessmentRecordedAt.Some? ==> c.assessmentRecordedAt.value <= c.scopeRestoredAt.value))
    && (!RestoredSinceRecorded(writes) && c.scopeRestoredAt.Some? ==>
          c.assessmentRecordedAt.Some? && c.scopeRestoredAt.value <= c.assessmentRecordedAt.value)
  }

  lemma {:induction false} HistoryStamps(writes: seq<Write>)
    requires Chronological(writes)
    ensures StampsDescribe(writes, ApplyAll(FRESH, writes))
  {
    if writes != [] {
      var n := |writes| - 1;
      var before, c := writes[..n], ApplyAll(FRESH, writes[..n]);
      HistoryStamps(before);
      assert forall k :: 0 <= k < n ==> before[k] == writes[k];
      assert StampedBy(writes, c.scopeRestoredAt) && StampedBy(writes, c.assessmentRecordedAt);
      assert StampedBy(writes, Some(writes[n].at));
      if Restores(writes, n) { RestoreEndsIt(writes, n); }
      else if writes[n].Record? { RecordingEndsIt(writes, n); }
      else { OtherWritesKeepIt(writes, n); }
    }
  }

  /**
   Over every history whose clock never runs backwards: a control is stale exactly when it is
   in scope, has a status or maturity, was put back into scope after the last recording, and
   the two stamps differ (a restore in the very instant of the recording goes unnoticed).
   */
  lemma StaleExactlyWhenRestoredSinceRecorded(writes: seq<Write>)
    requires Chronological(writes)
    ensures var c := ApplyAll(FRESH, writes);
            IsStale(c) <==>
            && c.selected && !(Blank(c.status) && Blank(c.maturity))
            && RestoredSinceRecorded(writes) && c.assessmentRecordedAt != c.scopeRestoredAt
  {
    HistoryStamps(writes);
  }
}
