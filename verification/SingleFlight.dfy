/**
 The single-flight identity lookup of backend/auth.py.

 Every request that carries a Google access token becomes a call.  A call runs
 without interruption between two awaits, so the world moves in atomic steps:
 Redis answers a read, the call looks at the in-flight table and either joins
 the lookup it finds there or leads a new one, Google answers twice, the cache
 write lands and returns, a future wakes those that wait on it, or somebody
 cancels a call.  Steps of different calls interleave in any order, and an
 event that does not fit the state of its call changes nothing.  A cache write may land while
 its sender waits for it, after the sender has been cancelled, or never.

 The SHA-256 of a token is represented by the token itself.  A future is named
 after the call that created it, since a call creates at most one.
 */
module SingleFlight {
  import opened Options

  type Token = string
  type CallId = nat

  datatype Identity = Identity(sub: string, email: Option<string>, name: Option<string>)

  datatype Outcome = Returned(identity: Identity) | Raised(error: string) | Cancelled

  /** How a finished call came by its outcome. */
  datatype Origin = FromCache | Led | Joined(leader: CallId) | Abandoned

  datatype Phase =
    | Reading
    | Replied(cached: Option<Identity>)
    | TokenInfo
    | UserInfo(answeredAt: nat, expiresIn: int)
    | Writing(identity: Identity, answeredAt: nat, expiresIn: int)
    | Waiting(leader: CallId)
    | Done(outcome: Outcome, origin: Origin)

  datatype Call = Call(token: Token, phase: Phase)

  datatype Future = Pending | Settled(outcome: Outcome)

  /** A Redis entry: visible while now < expiresAt.  When it was written is history, which the code never reads. */
  datatype Entry = Entry(identity: Identity, writtenAt: nat, expiresAt: int)

  /** One complete lookup: what Google said about which token, and when tokeninfo said it. */
  datatype Answer = Answer(token: Token, identity: Identity, answeredAt: nat, expiresIn: int)

  datatype World = World(
    now: nat,
    calls: map<CallId, Call>,
    inflight: map<Token, CallId>,
    futures: map<CallId, Future>,
    cache: map<Token, Entry>,
    answers: set<Answer>)

  datatype Event =
    | Arrive(call: CallId, token: Token)
    | Reply(call: CallId, readable: bool)
    | Resume(call: CallId)
    | TokenInfoAnswers(call: CallId, expiresIn: int)
    | UserInfoAnswers(call: CallId, identity: Identity)
    | LookupFails(call: CallId, error: string)
    | WriteLands(answer: Answer)
    | WriteReturns(call: CallId)
    | Wake(call: CallId)
    | Cancel(call: CallId)
    | Tick(seconds: nat)

  const MAX_TTL_SECONDS: int := 300

  function Ttl(expiresIn: int): int {
    if expiresIn < MAX_TTL_SECONDS then expiresIn else MAX_TTL_SECONDS
  }

  const INITIAL := World(0, map[], map[], map[], map[], {})

  predicate Leading(phase: Phase) {
    phase.TokenInfo? || phase.UserInfo? || phase.Writing?
  }

  predicate InPhase(w: World, c: CallId, test: Phase -> bool) {
    c in w.calls && test(w.calls[c].phase)
  }

  function Moved(w: World, c: CallId, phase: Phase): World
    requires c in w.calls
  {
    w.(calls := w.calls[c := w.calls[c].(phase := phase)])
  }

  /** The leader's way out: its future gets the outcome, the table forgets it, the call ends. */
  function Settle(w: World, c: CallId, outcome: Outcome): World
    requires c in w.calls
  {
    Moved(w, c, Done(outcome, Led)).(
      futures := w.futures[c := Settled(outcome)],
      inflight := w.inflight - {w.calls[c].token})
  }

  /** Consult the in-flight table: join the lookup it names, or lead a new one. */
  function JoinOrLead(w: World, c: CallId): World
    requires c in w.calls
  {
    var token := w.calls[c].token;
    if token in w.inflight then
      Moved(w, c, Waiting(w.inflight[token]))
    else
      Moved(w, c, TokenInfo).(futures := w.futures[c := Pending], inflight := w.inflight[token := c])
  }

  function Visible(w: World, token: Token): Option<Identity> {
    if token in w.cache && w.now < w.cache[token].expiresAt
    then Some(w.cache[token].identity) else None
  }

  function Step(w: World, e: Event): World {
    match e
    case Arrive(c, token) =>
      if c in w.calls then w else w.(calls := w.calls[c := Call(token, Reading)])
    case Reply(c, readable) =>
      if InPhase(w, c, (p: Phase) => p.Reading?) then
        Moved(w, c, Replied(if readable then Visible(w, w.calls[c].token) else None))
      else w
    case Resume(c) =>
      if InPhase(w, c, (p: Phase) => p.Replied?) then
        match w.calls[c].phase.cached
        case Some(identity) => Moved(w, c, Done(Returned(identity), FromCache))
        case None => JoinOrLead(w, c)
      else w
    case TokenInfoAnswers(c, expiresIn) =>
      if InPhase(w, c, (p: Phase) => p.TokenInfo?) then Moved(w, c, UserInfo(w.now, expiresIn)) else w
    case UserInfoAnswers(c, identity) =>
      if InPhase(w, c, (p: Phase) => p.UserInfo?) then
        var p := w.calls[c].phase;
        var learned := w.(answers := w.answers + {Answer(w.calls[c].token, identity, p.answeredAt, p.expiresIn)});
        if Ttl(p.expiresIn) > 0
        then Moved(learned, c, Writing(identity, p.answeredAt, p.expiresIn))
        else Settle(learned, c, Returned(identity))
      else w
    case LookupFails(c, error) =>
      if InPhase(w, c, (p: Phase) => p.TokenInfo? || p.UserInfo?) then Settle(w, c, Raised(error)) else w
    case WriteLands(a) =>
      if a in w.answers && Ttl(a.expiresIn) > 0
      then w.(cache := w.cache[a.token := Entry(a.identity, w.now, w.now + Ttl(a.expiresIn))])
      else w
    case WriteReturns(c) =>
      if InPhase(w, c, (p: Phase) => p.Writing?)
      then Settle(w, c, Returned(w.calls[c].phase.identity)) else w
    case Wake(c) =>
      if InPhase(w, c, (p: Phase) => p.Waiting? && p.leader in w.futures && w.futures[p.leader].Settled?) then
        var leader := w.calls[c].phase.leader;
        Moved(w, c, Done(w.futures[leader].outcome, Joined(leader)))
      else w
    case Cancel(c) =>
      if InPhase(w, c, Leading) then Settle(w, c, Cancelled)
      else if InPhase(w, c, (p: Phase) => !p.Done?) then Moved(w, c, Done(Cancelled, Abandoned))
      else w
    case Tick(seconds) => w.(now := w.now + seconds)
  }

  function Run(w: World, events: seq<Event>): World
    decreases |events|
  {
    if events == [] then w else Run(Step(w, events[0]), events[1..])
  }

  // ---------------------------------------------------------------------------
  // The invariant
  // ---------------------------------------------------------------------------

  /** Some lookup of this very token returned this identity. */
  ghost predicate Answered(w: World, token: Token, identity: Identity) {
    exists a :: a in w.answers && a.token == token && a.identity == identity
  }

  ghost predicate OutcomeAnswered(w: World, token: Token, outcome: Outcome) {
    outcome.Returned? ==> Answered(w, token, outcome.identity)
  }

  /** A cache entry written at some past moment on behalf of some lookup of its token. */
  ghost predicate WrittenFor(w: World, token: Token, entry: Entry, a: Answer) {
    && a in w.answers && a.token == token && a.identity == entry.identity
    && a.answeredAt <= entry.writtenAt <= w.now
    && Ttl(a.expiresIn) > 0
    && entry.expiresAt == entry.writtenAt + Ttl(a.expiresIn)
  }

  ghost predicate Backed(w: World, token: Token, entry: Entry) {
    exists a :: WrittenFor(w, token, entry, a)
  }

  ghost predicate CallOk(w: World, c: CallId)
    requires c in w.calls
  {
    var token := w.calls[c].token;
    match w.calls[c].phase
    case Reading => true
    case Replied(cached) => cached.Some? ==> Answered(w, token, cached.value)
    case TokenInfo => token in w.inflight && w.inflight[token] == c
    case UserInfo(at, _) => token in w.inflight && w.inflight[token] == c && at <= w.now
    case Writing(identity, at, expiresIn) =>
      && token in w.inflight && w.inflight[token] == c
      && at <= w.now && Ttl(expiresIn) > 0 && Answer(token, identity, at, expiresIn) in w.answers
    case Waiting(leader) => leader in w.futures && leader in w.calls && w.calls[leader].token == token
    case Done(outcome, origin) =>
      && OutcomeAnswered(w, token, outcome)
      && (origin.FromCache? ==> outcome.Returned?)
      && (origin.Led? ==> c in w.futures && w.futures[c] == Settled(outcome))
      && (origin.Joined? ==>
            && origin.leader in w.futures && w.futures[origin.leader] == Settled(outcome)
            && origin.leader in w.calls && w.calls[origin.leader].token == token)
      && (origin.Abandoned? ==> outcome.Cancelled?)
  }

  ghost predicate FutureOk(w: World, f: CallId)
    requires f in w.futures
  {
    && f in w.calls
    && match w.futures[f]
       case Pending => Leading(w.calls[f].phase)
       case Settled(outcome) => w.calls[f].phase == Done(outcome, Led)
  }

  ghost predicate TableOk(w: World, token: Token)
    requires token in w.inflight
  {
    var leader := w.inflight[token];
    && leader in w.calls && w.calls[leader].token == token && Leading(w.calls[leader].phase)
    && leader in w.futures && w.futures[leader].Pending?
  }

  ghost predicate Inv(w: World) {
    && (forall c :: c in w.calls ==> CallOk(w, c))
    && (forall f :: f in w.futures ==> FutureOk(w, f))
    && (forall token :: token in w.inflight ==> TableOk(w, token))
    && (forall token :: token in w.cache ==> Backed(w, token, w.cache[token]))
    && (forall a :: a in w.answers ==> a.answeredAt <= w.now)
  }

  // ---------------------------------------------------------------------------
  // Every step keeps the invariant
  // ---------------------------------------------------------------------------

  lemma EntriesStayBacked(w: World, w': World)
    requires Inv(w)
    requires w.answers <= w'.answers && w.now <= w'.now
    requires forall token :: token in w'.cache ==> token in w.cache && w'.cache[token] == w.cache[token]
    ensures forall token :: token in w'.cache ==> Backed(w', token, w'.cache[token])
  {
    forall token | token in w'.cache
      ensures Backed(w', token, w'.cache[token])
    {
      var a :| WrittenFor(w, token, w.cache[token], a);
      assert WrittenFor(w', token, w'.cache[token], a);
    }
  }

  lemma SettleKeepsInvariant(w: World, c: CallId, outcome: Outcome)
    requires Inv(w) && c in w.calls && Leading(w.calls[c].phase)
    requires OutcomeAnswered(w, w.calls[c].token, outcome)
    ensures Inv(Settle(w, c, outcome))
  {
    var w' := Settle(w, c, outcome);
    EntriesStayBacked(w, w');
    forall d | d in w'.calls
      ensures CallOk(w', d)
    {
      assert CallOk(w, d);
    }
  }

  /** What the other calls and the futures rely on survives a move that is not a leader's. */
  lemma MoveKeepsTheRest(w: World, c: CallId, phase: Phase)
    requires Inv(w) && c in w.calls
    requires !Leading(w.calls[c].phase) && !w.calls[c].phase.Done?
    ensures var w' := Moved(w, c, phase);
            && (forall d :: d in w'.calls && d != c ==> CallOk(w', d))
            && (forall f :: f in w'.futures ==> FutureOk(w', f))
  {
    var w' := Moved(w, c, phase);
    forall d | d in w'.calls && d != c
      ensures CallOk(w', d)
    {
      assert CallOk(w, d);
    }
    forall f | f in w'.futures
      ensures FutureOk(w', f)
    {
      assert FutureOk(w, f);
    }
  }

  /** A call that is neither leading nor finished may move to any sound non-leading phase. */
  lemma MoveKeepsInvariant(w: World, c: CallId, phase: Phase)
    requires Inv(w) && c in w.calls
    requires !Leading(w.calls[c].phase) && !w.calls[c].phase.Done?
    requires !Leading(phase) && CallOk(Moved(w, c, phase), c)
    requires !(phase.Done? && phase.origin.Led?)
    ensures Inv(Moved(w, c, phase))
  {
    var w' := Moved(w, c, phase);
    EntriesStayBacked(w, w');
    MoveKeepsTheRest(w, c, phase);
    forall token | token in w'.inflight
      ensures TableOk(w', token)
    {
      assert TableOk(w, token);
    }
  }

  lemma LeadKeepsInvariant(w: World, c: CallId)
    requires Inv(w) && InPhase(w, c, (p: Phase) => p.Replied?)
    requires w.calls[c].token !in w.inflight
    ensures Inv(JoinOrLead(w, c))
  {
    var w' := JoinOrLead(w, c);
    EntriesStayBacked(w, w');
    assert c !in w.futures by { assert c in w.futures ==> FutureOk(w, c); }
    forall d | d in w'.calls
      ensures CallOk(w', d)
    {
      assert CallOk(w, d);
    }
    forall token | token in w'.inflight
      ensures TableOk(w', token)
    {
      assert token != w.calls[c].token ==> TableOk(w, token);
    }
  }

  /** A leading call may move to another sound leading phase. */
  lemma LeaderMoveKeepsInvariant(w: World, c: CallId, phase: Phase)
    requires Inv(w) && InPhase(w, c, Leading)
    requires Leading(phase) && CallOk(Moved(w, c, phase), c)
    ensures Inv(Moved(w, c, phase))
  {
    var w' := Moved(w, c, phase);
    EntriesStayBacked(w, w');
  }

  /** Learning one more answer, letting time pass and admitting a new call disturb nothing. */
  lemma GrowthKeepsInvariant(w: World, w': World)
    requires Inv(w)
    requires w.answers <= w'.answers && w.now <= w'.now && forall a :: a in w'.answers ==> a.answeredAt <= w'.now
    requires w'.inflight == w.inflight && w'.futures == w.futures && w'.cache == w.cache
    requires forall c :: c in w.calls ==> c in w'.calls && w'.calls[c] == w.calls[c]
    requires forall c :: c in w'.calls && c !in w.calls ==> w'.calls[c].phase.Reading?
    ensures Inv(w')
  {
    EntriesStayBacked(w, w');
    forall d | d in w'.calls
      ensures CallOk(w', d)
    {
      if d in w.calls {
        assert CallOk(w, d);
        AnswersStay(w, w', w.calls[d].token);
      }
    }
  }

  lemma AnswersStay(w: World, w': World, token: Token)
    requires w.answers <= w'.answers
    ensures forall identity :: Answered(w, token, identity) ==> Answered(w', token, identity)
  {
    forall identity | Answered(w, token, identity)
      ensures Answered(w', token, identity)
    {
      var a :| a in w.answers && a.token == token && a.identity == identity;
      assert a in w'.answers;
    }
  }

  lemma UserInfoKeepsInvariant(w: World, c: CallId, identity: Identity)
    requires Inv(w) && InPhase(w, c, (p: Phase) => p.UserInfo?)
    ensures Inv(Step(w, UserInfoAnswers(c, identity)))
  {
    var p := w.calls[c].phase;
    var a := Answer(w.calls[c].token, identity, p.answeredAt, p.expiresIn);
    var learned := w.(answers := w.answers + {a});
    assert CallOk(w, c);
    GrowthKeepsInvariant(w, learned);
    assert CallOk(learned, c);
    if Ttl(p.expiresIn) > 0 {
      LeaderMoveKeepsInvariant(learned, c, Writing(identity, p.answeredAt, p.expiresIn));
    } else {
      assert a in learned.answers && a.token == w.calls[c].token && a.identity == identity;
      SettleKeepsInvariant(learned, c, Returned(identity));
    }
  }

  lemma WriteKeepsInvariant(w: World, a: Answer)
    requires Inv(w) && a in w.answers && a.answeredAt <= w.now
    ensures Inv(Step(w, WriteLands(a)))
  {
    var w' := Step(w, WriteLands(a));
    forall token | token in w'.cache
      ensures Backed(w', token, w'.cache[token])
    {
      if token == a.token && w' != w {
        assert WrittenFor(w', token, w'.cache[token], a);
      } else {
        var b :| WrittenFor(w, token, w.cache[token], b);
        assert WrittenFor(w', token, w'.cache[token], b);
      }
    }
  }

  lemma VisibleIsAnswered(w: World, token: Token)
    requires Inv(w) && Visible(w, token).Some?
    ensures Answered(w, token, Visible(w, token).value)
  {
    var a :| WrittenFor(w, token, w.cache[token], a);
    assert a in w.answers && a.token == token && a.identity == Visible(w, token).value;
  }

  lemma ReplyKeepsInvariant(w: World, c: CallId, readable: bool)
    requires Inv(w) && InPhase(w, c, (p: Phase) => p.Reading?)
    ensures Inv(Step(w, Reply(c, readable)))
  {
    var token := w.calls[c].token;
    if Visible(w, token).Some? { VisibleIsAnswered(w, token); }
    MoveKeepsInvariant(w, c, Replied(if readable then Visible(w, token) else None));
  }

  lemma ResumeKeepsInvariant(w: World, c: CallId)
    requires Inv(w) && InPhase(w, c, (p: Phase) => p.Replied?)
    ensures Inv(Step(w, Resume(c)))
  {
    assert CallOk(w, c);
    var token := w.calls[c].token;
    match w.calls[c].phase.cached {
      case Some(identity) => MoveKeepsInvariant(w, c, Done(Returned(identity), FromCache));
      case None =>
        if token in w.inflight {
          assert TableOk(w, token);
          MoveKeepsInvariant(w, c, Waiting(w.inflight[token]));
        } else {
          LeadKeepsInvariant(w, c);
        }
    }
  }

  lemma ReturnKeepsInvariant(w: World, c: CallId)
    requires Inv(w) && InPhase(w, c, (p: Phase) => p.Writing?)
    ensures Inv(Step(w, WriteReturns(c)))
  {
    assert CallOk(w, c);
    var p := w.calls[c].phase;
    var a := Answer(w.calls[c].token, p.identity, p.answeredAt, p.expiresIn);
    assert a in w.answers && a.token == w.calls[c].token && a.identity == p.identity;
    SettleKeepsInvariant(w, c, Returned(p.identity));
  }

  lemma WakeKeepsInvariant(w: World, c: CallId)
    requires Inv(w) && InPhase(w, c, (p: Phase) => p.Waiting?)
    ensures Inv(Step(w, Wake(c)))
  {
    assert CallOk(w, c);
    var leader := w.calls[c].phase.leader;
    assert FutureOk(w, leader) && CallOk(w, leader);
    if w.futures[leader].Settled? {
      MoveKeepsInvariant(w, c, Done(w.futures[leader].outcome, Joined(leader)));
    }
  }

  lemma StepKeepsInvariant(w: World, e: Event)
    requires Inv(w)
    ensures Inv(Step(w, e))
  {
    var w' := Step(w, e);
    if w' != w {
      match e {
        case Arrive(c, token) => GrowthKeepsInvariant(w, w');
        case Tick(seconds) => GrowthKeepsInvariant(w, w');
        case Reply(c, readable) => ReplyKeepsInvariant(w, c, readable);
        case Resume(c) => ResumeKeepsInvariant(w, c);
        case TokenInfoAnswers(c, expiresIn) =>
          assert CallOk(w, c);
          LeaderMoveKeepsInvariant(w, c, UserInfo(w.now, expiresIn));
        case UserInfoAnswers(c, identity) => UserInfoKeepsInvariant(w, c, identity);
        case LookupFails(c, error) => SettleKeepsInvariant(w, c, Raised(error));
        case WriteLands(a) => WriteKeepsInvariant(w, a);
        case WriteReturns(c) => ReturnKeepsInvariant(w, c);
        case Wake(c) => WakeKeepsInvariant(w, c);
        case Cancel(c) =>
          if Leading(w.calls[c].phase) { SettleKeepsInvariant(w, c, Cancelled); }
          else { MoveKeepsInvariant(w, c, Done(Cancelled, Abandoned)); }
      }
    }
  }

  lemma {:induction false} RunKeepsInvariant(w: World, events: seq<Event>)
    requires Inv(w)
    ensures Inv(Run(w, events))
    decreases |events|
  {
    if events != [] {
      StepKeepsInvariant(w, events[0]);
      RunKeepsInvariant(Step(w, events[0]), events[1..]);
    }
  }

  // ---------------------------------------------------------------------------
  // What holds in every run, whatever the interleaving
  // ---------------------------------------------------------------------------

  lemma OneLookupPerToken(events: seq<Event>, c: CallId, d: CallId)
    requires var w := Run(INITIAL, events);
             && InPhase(w, c, Leading) && InPhase(w, d, Leading)
             && w.calls[c].token == w.calls[d].token
    ensures c == d
  {
    RunKeepsInvariant(INITIAL, events);
    var w := Run(INITIAL, events);
    assert CallOk(w, c) && CallOk(w, d);
  }

  /** A waiter that was not itself cancelled ends exactly as the leader of its own token's lookup did. */
  lemma WaitersEndAsTheirLeader(events: seq<Event>, c: CallId)
    requires InPhase(Run(INITIAL, events), c, (p: Phase) => p.Done? && p.origin.Joined?)
    ensures var w := Run(INITIAL, events);
            var p := w.calls[c].phase;
            && p.origin.leader in w.calls
            && w.calls[p.origin.leader] == Call(w.calls[c].token, Done(p.outcome, Led))
  {
    RunKeepsInvariant(INITIAL, events);
    var w := Run(INITIAL, events);
    assert CallOk(w, c);
    assert FutureOk(w, w.calls[c].phase.origin.leader);
  }

  /** A waiter always has either a live leader for its token or a settled future to wake from. */
  lemma NoOrphanedWaiter(events: seq<Event>, c: CallId)
    requires InPhase(Run(INITIAL, events), c, (p: Phase) => p.Waiting?)
    ensures var w := Run(INITIAL, events);
            var leader := w.calls[c].phase.leader;
            && leader in w.calls && w.calls[leader].token == w.calls[c].token
            && leader in w.futures
            && match w.futures[leader]
               case Pending =>
                 && Leading(w.calls[leader].phase)
                 && w.calls[c].token in w.inflight && w.inflight[w.calls[c].token] == leader
               case Settled(outcome) => w.calls[leader].phase == Done(outcome, Led)
  {
    RunKeepsInvariant(INITIAL, events);
    var w := Run(INITIAL, events);
    assert CallOk(w, c);
    var leader := w.calls[c].phase.leader;
    assert FutureOk(w, leader);
    assert CallOk(w, leader);
  }

  ghost predicate EndsCall(w: World, c: CallId) {
    c in w.calls && w.calls[c].phase.Done?
  }

  function LeaderEnds(w: World, leader: CallId): Event {
    if InPhase(w, leader, (p: Phase) => p.Writing?) then WriteReturns(leader) else LookupFails(leader, "unreachable")
  }

  lemma {:induction false} RunSplit(w: World, xs: seq<Event>, ys: seq<Event>)
    ensures Run(w, xs + ys) == Run(Run(w, xs), ys)
    decreases |xs|
  {
    if xs == [] {
      assert xs + ys == ys;
    } else {
      assert (xs + ys)[1..] == xs[1..] + ys;
      RunSplit(Step(w, xs[0]), xs[1..], ys);
    }
  }

  ghost predicate NetworkOnly(events: seq<Event>) {
    forall e :: e in events ==> !e.Arrive? && !e.Cancel?
  }

  lemma LeaderCanEnd(w: World, c: CallId)
    requires InPhase(w, c, Leading)
    ensures EndsCall(Run(w, [LeaderEnds(w, c)]), c)
  {
  }

  lemma WaiterCanEnd(w: World, c: CallId) returns (events: seq<Event>)
    requires Inv(w) && InPhase(w, c, (p: Phase) => p.Waiting?)
    ensures |events| <= 2 && NetworkOnly(events) && EndsCall(Run(w, events), c)
  {
    assert CallOk(w, c);
    var leader := w.calls[c].phase.leader;
    assert FutureOk(w, leader);
    var w' := Step(w, LeaderEnds(w, leader));
    assert w'.calls[c] == w.calls[c] && w'.futures[leader].Settled?;
    events := [LeaderEnds(w, leader)] + [Wake(c)];
    RunSplit(w, [LeaderEnds(w, leader)], [Wake(c)]);
  }

  lemma ResumedCanEnd(w: World, c: CallId) returns (events: seq<Event>)
    requires Inv(w) && InPhase(w, c, (p: Phase) => p.Replied?)
    ensures |events| <= 3 && NetworkOnly(events) && EndsCall(Run(w, events), c)
  {
    var w' := Step(w, Resume(c));
    StepKeepsInvariant(w, Resume(c));
    var rest := [];
    if w'.calls[c].phase.Waiting? {
      rest := WaiterCanEnd(w', c);
    } else if w'.calls[c].phase.TokenInfo? {
      rest := [LeaderEnds(w', c)];
      LeaderCanEnd(w', c);
    }
    events := [Resume(c)] + rest;
    RunSplit(w, [Resume(c)], rest);
  }

  /** No call is ever stuck: at most four network events, and no cancellation or new call, end it. */
  lemma NoCallIsStuck(w: World, c: CallId) returns (events: seq<Event>)
    requires Inv(w) && c in w.calls
    ensures |events| <= 4 && NetworkOnly(events) && EndsCall(Run(w, events), c)
  {
    match w.calls[c].phase {
      case Reading =>
        StepKeepsInvariant(w, Reply(c, false));
        var rest := ResumedCanEnd(Step(w, Reply(c, false)), c);
        events := [Reply(c, false)] + rest;
        RunSplit(w, [Reply(c, false)], rest);
      case Replied(_) => events := ResumedCanEnd(w, c);
      case Waiting(_) => events := WaiterCanEnd(w, c);
      case Done(_, _) => events := [];
      case _ =>
        events := [LeaderEnds(w, c)];
        LeaderCanEnd(w, c);
    }
  }

  /** A step only ever touches the record and the future of its own call. */
  lemma OtherCallsStay(w: World, e: Event, c: CallId)
    requires Subject(e) != Some(c)
    ensures c in w.calls ==> c in Step(w, e).calls && Step(w, e).calls[c] == w.calls[c]
    ensures c in w.futures ==> c in Step(w, e).futures && Step(w, e).futures[c] == w.futures[c]
  {
    match e {
      case Resume(d) =>
      case UserInfoAnswers(d, identity) =>
      case Cancel(d) =>
      case _ =>
    }
  }

  lemma EndedCallsIgnoreTheirEvents(w: World, e: Event, c: CallId)
    requires EndsCall(w, c) && Subject(e) == Some(c)
    ensures Step(w, e) == w
  {
  }

  /** Once a call has ended, neither it nor its future is ever touched again. */
  lemma {:induction false} SettledForever(w: World, events: seq<Event>, c: CallId)
    requires EndsCall(w, c)
    ensures var w' := Run(w, events);
            && c in w'.calls && w'.calls[c] == w.calls[c]
            && (c in w.futures ==> c in w'.futures && w'.futures[c] == w.futures[c])
    decreases |events|
  {
    if events != [] {
      if Subject(events[0]) == Some(c) { EndedCallsIgnoreTheirEvents(w, events[0], c); }
      else { OtherCallsStay(w, events[0], c); }
      SettledForever(Step(w, events[0]), events[1..], c);
    }
  }

  /** The call an event is about, if any. */
  function Subject(e: Event): Option<CallId> {
    if e.Tick? || e.WriteLands? then None else Some(e.call)
  }

  lemma HiddenMove(w: World, c: CallId, phase: Phase, d: CallId, other: Phase)
    requires c in w.calls && d in w.calls && c != d
    ensures Moved(Moved(w, c, phase), d, other) == Moved(Moved(w, d, other), c, phase)
  {
    assert w.calls[c := w.calls[c].(phase := phase)][d := w.calls[d].(phase := other)]
        == w.calls[d := w.calls[d].(phase := other)][c := w.calls[c].(phase := phase)];
  }

  lemma HiddenArrival(w: World, c: CallId, phase: Phase, d: CallId, token: Token)
    requires c in w.calls && d !in w.calls
    ensures Step(Moved(w, c, phase), Arrive(d, token)) == Moved(Step(w, Arrive(d, token)), c, phase)
  {
    assert w.calls[d := Call(token, Reading)][c := w.calls[c].(phase := phase)]
        == w.calls[c := w.calls[c].(phase := phase)][d := Call(token, Reading)];
  }

  /** Nobody else's step looks at the record of a call that does not lead. */
  lemma HiddenStep(w: World, e: Event, c: CallId, phase: Phase)
    requires c in w.calls
    requires Subject(e) != Some(c)
    ensures c in Step(w, e).calls && Step(w, e).calls[c] == w.calls[c]
    ensures Step(Moved(w, c, phase), e) == Moved(Step(w, e), c, phase)
  {
    OtherCallsStay(w, e, c);
    if Subject(e).None? {
    } else if e.call !in w.calls {
      if e.Arrive? { HiddenArrival(w, c, phase, e.call, e.token); }
    } else {
      HiddenOwnStep(w, e, c, phase);
    }
  }

  lemma HiddenOwnStep(w: World, e: Event, c: CallId, phase: Phase)
    requires c in w.calls && Subject(e).Some? && e.call in w.calls && e.call != c
    requires c in Step(w, e).calls
    ensures Step(Moved(w, c, phase), e) == Moved(Step(w, e), c, phase)
  {
    match e {
      case Arrive(_, _) =>
      case Reply(d, readable) => HiddenReply(w, d, readable, c, phase);
      case Resume(d) => HiddenResume(w, d, c, phase);
      case TokenInfoAnswers(d, expiresIn) => HiddenMove(w, c, phase, d, UserInfo(w.now, expiresIn));
      case UserInfoAnswers(d, identity) => HiddenUserInfo(w, d, identity, c, phase);
      case LookupFails(d, error) => HiddenSettle(w, c, phase, d, Raised(error));
      case WriteReturns(d) => HiddenWriteReturn(w, d, c, phase);
      case Wake(d) => HiddenWake(w, d, c, phase);
      case Cancel(d) => HiddenCancel(w, d, c, phase);
    }
  }

  lemma HiddenReply(w: World, d: CallId, readable: bool, c: CallId, phase: Phase)
    requires c in w.calls && d in w.calls && d != c
    ensures Step(Moved(w, c, phase), Reply(d, readable)) == Moved(Step(w, Reply(d, readable)), c, phase)
  {
    HiddenMove(w, c, phase, d, Replied(if readable then Visible(w, w.calls[d].token) else None));
  }

  lemma HiddenWriteReturn(w: World, d: CallId, c: CallId, phase: Phase)
    requires c in w.calls && d in w.calls && d != c
    ensures Step(Moved(w, c, phase), WriteReturns(d)) == Moved(Step(w, WriteReturns(d)), c, phase)
  {
    if w.calls[d].phase.Writing? {
      HiddenSettle(w, c, phase, d, Returned(w.calls[d].phase.identity));
    }
  }

  lemma HiddenCancel(w: World, d: CallId, c: CallId, phase: Phase)
    requires c in w.calls && d in w.calls && d != c
    ensures Step(Moved(w, c, phase), Cancel(d)) == Moved(Step(w, Cancel(d)), c, phase)
  {
    HiddenSettle(w, c, phase, d, Cancelled);
    HiddenMove(w, c, phase, d, Done(Cancelled, Abandoned));
  }

  lemma HiddenSettle(w: World, c: CallId, phase: Phase, d: CallId, outcome: Outcome)
    requires c in w.calls && d in w.calls && d != c
    ensures Settle(Moved(w, c, phase), d, outcome) == Moved(Settle(w, d, outcome), c, phase)
  {
    HiddenMove(w, c, phase, d, Done(outcome, Led));
  }

  lemma HiddenResume(w: World, d: CallId, c: CallId, phase: Phase)
    requires c in w.calls && d in w.calls && d != c
    ensures Step(Moved(w, c, phase), Resume(d)) == Moved(Step(w, Resume(d)), c, phase)
  {
    if w.calls[d].phase.Replied? {
      match w.calls[d].phase.cached {
        case Some(identity) => HiddenMove(w, c, phase, d, Done(Returned(identity), FromCache));
        case None =>
          var token := w.calls[d].token;
          HiddenMove(w, c, phase, d, if token in w.inflight then Waiting(w.inflight[token]) else TokenInfo);
      }
    }
  }

  lemma HiddenWake(w: World, d: CallId, c: CallId, phase: Phase)
    requires c in w.calls && d in w.calls && d != c
    ensures Step(Moved(w, c, phase), Wake(d)) == Moved(Step(w, Wake(d)), c, phase)
  {
    HiddenMove(w, c, phase, d, Step(w, Wake(d)).calls[d].phase);
  }

  lemma HiddenUserInfo(w: World, d: CallId, identity: Identity, c: CallId, phase: Phase)
    requires c in w.calls && d in w.calls && d != c
    ensures Step(Moved(w, c, phase), UserInfoAnswers(d, identity))
         == Moved(Step(w, UserInfoAnswers(d, identity)), c, phase)
  {
    var p := w.calls[d].phase;
    if p.UserInfo? {
      var learned := w.(answers := w.answers + {Answer(w.calls[d].token, identity, p.answeredAt, p.expiresIn)});
      if Ttl(p.expiresIn) > 0 {
        HiddenMove(learned, c, phase, d, Writing(identity, p.answeredAt, p.expiresIn));
      } else {
        HiddenSettle(learned, c, phase, d, Returned(identity));
      }
    }
  }

  /**
   Cancelling a waiter is invisible to everybody else: whatever happens next, the
   world differs from the one without the cancellation in that one call only.
   */
  lemma {:induction false} CancelledWaiterDisturbsNobody(w: World, c: CallId, events: seq<Event>)
    requires InPhase(w, c, (p: Phase) => p.Waiting?)
    requires forall e :: e in events ==> Subject(e) != Some(c)
    ensures c in Run(w, events).calls
    ensures Run(Step(w, Cancel(c)), events) == Moved(Run(w, events), c, Done(Cancelled, Abandoned))
    decreases |events|
  {
    if events != [] {
      HiddenStep(w, events[0], c, Done(Cancelled, Abandoned));
      CancelledWaiterDisturbsNobody(Step(w, events[0]), c, events[1..]);
    }
  }

  /** Whatever a call returns, some completed lookup of that call's own token said so. */
  lemma ReturnedIdentitiesWereAnswered(events: seq<Event>, c: CallId)
    requires InPhase(Run(INITIAL, events), c, (p: Phase) => p.Done? && p.outcome.Returned?)
    ensures var w := Run(INITIAL, events);
            Answered(w, w.calls[c].token, w.calls[c].phase.outcome.identity)
  {
    RunKeepsInvariant(INITIAL, events);
    assert CallOk(Run(INITIAL, events), c);
  }

  /**
   A cached identity was written on behalf of a lookup of that very token, lives at
   most 300 s from the write, and outlives the expiry Google stated by at most the
   delay between the tokeninfo answer and the write.
   */
  lemma CachedIdentitiesExpire(events: seq<Event>, token: Token) returns (a: Answer)
    requires token in Run(INITIAL, events).cache
    ensures var w := Run(INITIAL, events);
            var entry := w.cache[token];
            && a in w.answers && a.token == token && a.identity == entry.identity
            && a.answeredAt <= entry.writtenAt <= w.now
            && entry.writtenAt < entry.expiresAt <= entry.writtenAt + 300
            && entry.expiresAt <= (a.answeredAt + a.expiresIn) + (entry.writtenAt - a.answeredAt)
  {
    RunKeepsInvariant(INITIAL, events);
    var w := Run(INITIAL, events);
    a :| WrittenFor(w, token, w.cache[token], a);
  }

  // ---------------------------------------------------------------------------
  // What a call is told, whatever happens to the others in between
  // ---------------------------------------------------------------------------

  /** None of the events is about the call. */
  predicate Foreign(events: seq<Event>, c: CallId) {
    forall e :: e in events ==> Subject(e) != Some(c)
  }

  /** Foreign events leave a call and its future as they are. */
  lemma {:induction false} ForeignEventsLeaveIt(w: World, events: seq<Event>, c: CallId)
    requires c in w.calls && Foreign(events, c)
    ensures var w' := Run(w, events);
            && c in w'.calls && w'.calls[c] == w.calls[c]
            && (c in w.futures ==> c in w'.futures && w'.futures[c] == w.futures[c])
    decreases |events|
  {
    if events != [] {
      OtherCallsStay(w, events[0], c);
      ForeignEventsLeaveIt(Step(w, events[0]), events[1..], c);
    }
  }

  lemma OneMore(w: World, events: seq<Event>, e: Event)
    ensures Run(w, events + [e]) == Step(Run(w, events), e)
  {
    RunSplit(w, events, [e]);
    assert [e][1..] == [];
    assert Run(Run(w, events), [e]) == Run(Step(Run(w, events), e), []);
  }

  /** Every call that arrives asks the cache first, and a readable, unexpired entry for its token is its answer. */
  lemma CachedIdentityIsReturned(w: World, c: CallId, token: Token, before: seq<Event>, after: seq<Event>)
    requires c !in w.calls && Foreign(before, c) && Foreign(after, c)
    requires var asked := Run(Step(w, Arrive(c, token)), before);
             token in asked.cache && asked.now < asked.cache[token].expiresAt
    ensures var asked := Run(Step(w, Arrive(c, token)), before);
            var waited := Run(Step(asked, Reply(c, true)), after);
            Step(waited, Resume(c))
              == waited.(calls := waited.calls[
                           c := Call(token, Done(Returned(asked.cache[token].identity), FromCache))])
  {
    ForeignEventsLeaveIt(Step(w, Arrive(c, token)), before, c);
    var asked := Run(Step(w, Arrive(c, token)), before);
    ForeignEventsLeaveIt(Step(asked, Reply(c, true)), after, c);
  }

  /** With no such entry, or none that can be read, it joins the lookup of its token or leads one of its own. */
  lemma MissJoinsOrLeads(w: World, c: CallId, readable: bool, between: seq<Event>)
    requires c in w.calls && w.calls[c].phase.Reading? && Foreign(between, c)
    requires !readable || w.calls[c].token !in w.cache || w.cache[w.calls[c].token].expiresAt <= w.now
    ensures var token := w.calls[c].token;
            var waited := Run(Step(w, Reply(c, readable)), between);
            Step(waited, Resume(c))
              == if token in waited.inflight
                 then waited.(calls := waited.calls[c := Call(token, Waiting(waited.inflight[token]))])
                 else
                   waited.(calls := waited.calls[c := Call(token, TokenInfo)],
                           futures := waited.futures[c := Pending], inflight := waited.inflight[token := c])
  {
    ForeignEventsLeaveIt(Step(w, Reply(c, readable)), between, c);
  }

  /** The two answers of Google, with foreign events after each. */
  function Lookup(c: CallId, expiresIn: int, first: seq<Event>, identity: Identity, second: seq<Event>): seq<Event> {
    [TokenInfoAnswers(c, expiresIn)] + (first + ([UserInfoAnswers(c, identity)] + second))
  }

  lemma LookupUpToTheWrite(
      w: World, c: CallId, expiresIn: int, first: seq<Event>, identity: Identity, second: seq<Event>)
    requires c in w.calls && w.calls[c].phase.TokenInfo? && Foreign(first, c) && Foreign(second, c)
    ensures var w' := Run(w, Lookup(c, expiresIn, first, identity, second));
            && c in w'.calls && w'.calls[c].token == w.calls[c].token
            && (expiresIn > 0 ==> w'.calls[c].phase == Writing(identity, w.now, expiresIn))
            && (expiresIn <= 0 ==>
                  && w'.calls[c].phase == Done(Returned(identity), Led)
                  && c in w'.futures && w'.futures[c] == Settled(Returned(identity)))
  {
    var informed := Step(w, TokenInfoAnswers(c, expiresIn));
    var waited := Run(informed, first);
    var answered := Step(waited, UserInfoAnswers(c, identity));
    ForeignEventsLeaveIt(informed, first, c);
    ForeignEventsLeaveIt(answered, second, c);
    RunSplit(informed, first, [UserInfoAnswers(c, identity)] + second);
    RunSplit(waited, [UserInfoAnswers(c, identity)], second);
    RunSplit(w, [TokenInfoAnswers(c, expiresIn)], first + ([UserInfoAnswers(c, identity)] + second));
    OneMore(w, [], TokenInfoAnswers(c, expiresIn));
    OneMore(waited, [], UserInfoAnswers(c, identity));
    assert [] + [TokenInfoAnswers(c, expiresIn)] == [TokenInfoAnswers(c, expiresIn)];
    assert [] + [UserInfoAnswers(c, identity)] == [UserInfoAnswers(c, identity)];
  }

  /**
   A lookup that Google answers returns exactly the identity Google gave and settles its future with
   it, whether anything is left to cache or not, whether the write lands or not, and whatever
   foreign events come between.
   */
  lemma AnsweredLookupReturnsItsIdentity(
      w: World, c: CallId, expiresIn: int, first: seq<Event>, identity: Identity, second: seq<Event>)
    requires c in w.calls && w.calls[c].phase.TokenInfo? && Foreign(first, c) && Foreign(second, c)
    ensures var w' := Run(w, Lookup(c, expiresIn, first, identity, second) + [WriteReturns(c)]);
            && c in w'.calls && w'.calls[c] == Call(w.calls[c].token, Done(Returned(identity), Led))
            && c in w'.futures && w'.futures[c] == Settled(Returned(identity))
  {
    LookupUpToTheWrite(w, c, expiresIn, first, identity, second);
    OneMore(w, Lookup(c, expiresIn, first, identity, second), WriteReturns(c));
  }

  /** Once a future has settled, a call that waits for it ends with that very outcome as soon as it wakes. */
  lemma WaiterIsToldTheOutcome(w: World, leader: CallId, c: CallId, outcome: Outcome, between: seq<Event>)
    requires leader in w.calls && w.calls[leader].phase.Done?
    requires leader in w.futures && w.futures[leader] == Settled(outcome)
    requires c in w.calls && w.calls[c].phase == Waiting(leader) && Foreign(between, c)
    ensures var w' := Run(w, between + [Wake(c)]);
            c in w'.calls && w'.calls[c] == Call(w.calls[c].token, Done(outcome, Joined(leader)))
  {
    ForeignEventsLeaveIt(w, between, c);
    SettledForever(w, between, leader);
    OneMore(w, between, Wake(c));
  }

  /** So everyone who waits for an answered lookup is told its identity. */
  lemma WaitersAreToldTheIdentity(
      w: World, leader: CallId, c: CallId, expiresIn: int, first: seq<Event>, identity: Identity, second: seq<Event>,
      between: seq<Event>)
    requires leader in w.calls && w.calls[leader].phase.TokenInfo?
    requires c in w.calls && w.calls[c].phase == Waiting(leader)
    requires Foreign(first, leader) && Foreign(second, leader)
    requires Foreign(first, c) && Foreign(second, c) && Foreign(between, c)
    ensures var w' := Run(Run(w, Lookup(leader, expiresIn, first, identity, second) + [WriteReturns(leader)]),
                          between + [Wake(c)]);
            c in w'.calls && w'.calls[c] == Call(w.calls[c].token, Done(Returned(identity), Joined(leader)))
  {
    var lookup := Lookup(leader, expiresIn, first, identity, second) + [WriteReturns(leader)];
    AnsweredLookupReturnsItsIdentity(w, leader, expiresIn, first, identity, second);
    assert Foreign(lookup, c);
    ForeignEventsLeaveIt(w, lookup, c);
    WaiterIsToldTheOutcome(Run(w, lookup), leader, c, Returned(identity), between);
  }

  /** A lookup that fails before its second answer, and one that is cancelled, ends so and settles its future so. */
  lemma FailedLookupEndsSo(w: World, c: CallId, error: string)
    requires c in w.calls
    ensures w.calls[c].phase.TokenInfo? || w.calls[c].phase.UserInfo? ==>
              var w' := Step(w, LookupFails(c, error));
              w'.calls[c].phase == Done(Raised(error), Led) && w'.futures[c] == Settled(Raised(error))
    ensures w.calls[c].phase.TokenInfo? || w.calls[c].phase.UserInfo? || w.calls[c].phase.Writing? ==>
              var w' := Step(w, Cancel(c));
              w'.calls[c].phase == Done(Cancelled, Led) && w'.futures[c] == Settled(Cancelled)
    ensures w.calls[c].phase.Reading? || w.calls[c].phase.Replied? || w.calls[c].phase.Waiting? ==>
              Step(w, Cancel(c)) == w.(calls := w.calls[c := w.calls[c].(phase := Done(Cancelled, Abandoned))])
  {
  }

  /** However a lookup ends, its token is free for the next one. */
  lemma EndedLookupFreesItsToken(w: World, c: CallId, e: Event)
    requires Inv(w) && c in w.calls && Leading(w.calls[c].phase) && Subject(e) == Some(c)
    requires c in Step(w, e).calls && Step(w, e).calls[c].phase.Done?
    ensures w.calls[c].token !in Step(w, e).inflight
    ensures forall token :: token in w.inflight && token != w.calls[c].token ==>
              token in Step(w, e).inflight && Step(w, e).inflight[token] == w.inflight[token]
  {
  }

  /**
   A write that lands puts the identity into the cache for as long as Google left the token to live,
   and 300 seconds at most, counted from the landing; with nothing left to live there is none.
   */
  lemma LandedWriteIsVisible(w: World, a: Answer, seconds: nat)
    requires a in w.answers
    ensures a.expiresIn > 0 ==>
              (Visible(Step(Step(w, WriteLands(a)), Tick(seconds)), a.token) == Some(a.identity) <==>
               seconds < a.expiresIn && seconds < 300)
    ensures a.expiresIn <= 0 ==> Step(w, WriteLands(a)) == w
  {
    assert a.expiresIn > 0 ==> a.token in Step(Step(w, WriteLands(a)), Tick(seconds)).cache;
  }

  /** The answer of a lookup that is being written can land. */
  lemma LookupCanBeCached(w: World, c: CallId)
    requires Inv(w) && c in w.calls && w.calls[c].phase.Writing?
    ensures var p := w.calls[c].phase;
            var a := Answer(w.calls[c].token, p.identity, p.answeredAt, p.expiresIn);
            && a in w.answers && w.calls[c].token in Step(w, WriteLands(a)).cache
            && Visible(Step(w, WriteLands(a)), w.calls[c].token) == Some(p.identity)
  {
    assert CallOk(w, c);
  }

  // ---------------------------------------------------------------------------
  // The resolver's own code, one method for each stretch between two awaits
  // ---------------------------------------------------------------------------

  class Resolver {
    var now: nat
    var calls: map<CallId, Call>
    var inflight: map<Token, CallId>
    var futures: map<CallId, Future>
    var cache: map<Token, Entry>
    var answers: set<Answer>

    function View(): World
      reads this
    {
      World(now, calls, inflight, futures, cache, answers)
    }

    constructor ()
      ensures View() == INITIAL
    {
      now, calls, inflight, futures, cache, answers := 0, map[], map[], map[], map[], {};
    }

    /** From the cache reply to the next await: return, join or lead. */
    method AfterCacheReply(c: CallId)
      requires c in calls && calls[c].phase.Replied?
      modifies this
      ensures View() == Step(old(View()), Resume(c))
    {
      var call := calls[c];
      if call.phase.cached.Some? {
        calls := calls[c := call.(phase := Done(Returned(call.phase.cached.value), FromCache))];
        return;
      }
      if call.token in inflight {
        calls := calls[c := call.(phase := Waiting(inflight[call.token]))];
        return;
      }
      futures := futures[c := Pending];
      inflight := inflight[call.token := c];
      calls := calls[c := call.(phase := TokenInfo)];
    }

    /** Resolve the future, drop it from the in-flight table, leave with the same outcome. */
    method Leave(c: CallId, outcome: Outcome)
      requires c in calls
      modifies this
      ensures View() == Settle(old(View()), c, outcome)
    {
      futures := futures[c := Settled(outcome)];
      inflight := inflight - {calls[c].token};
      calls := calls[c := calls[c].(phase := Done(outcome, Led))];
    }

    /** The lookup is complete: start the cache write, or skip it when nothing is left to live. */
    method AfterUserInfo(c: CallId, identity: Identity)
      requires c in calls && calls[c].phase.UserInfo?
      modifies this
      ensures View() == Step(old(View()), UserInfoAnswers(c, identity))
    {
      var call := calls[c];
      answers := answers + {Answer(call.token, identity, call.phase.answeredAt, call.phase.expiresIn)};
      var ttl := Ttl(call.phase.expiresIn);
      if ttl > 0 {
        calls := calls[c := call.(phase := Writing(identity, call.phase.answeredAt, call.phase.expiresIn))];
      } else {
        Leave(c, Returned(identity));
      }
    }

    /** A CancelledError surfaces at whatever await the call is suspended on. */
    method Interrupt(c: CallId)
      requires c in calls && !calls[c].phase.Done?
      modifies this
      ensures View() == Step(old(View()), Cancel(c))
    {
      if Leading(calls[c].phase) {
        Leave(c, Cancelled);
      } else {
        calls := calls[c := calls[c].(phase := Done(Cancelled, Abandoned))];
      }
    }
  }
}
