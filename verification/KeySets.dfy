/**
 Signing-key lookup for id_token validation (backend/oidc.py): the Redis-cached key set, the
 single forced refetch for an unknown key id, and the audience rule.

 Validations interleave at their awaits, the provider rotates its keys at any moment, Redis
 may lose the entry, a cache write may land while its sender waits, later, or never, and every
 network answer may be a failure.  Decoding happens in the same
 uninterrupted stretch in which the key set is accepted.
 */
module KeySets {
  import opened Bytes
  import opened Options
  import Base64Url

  /** One public key of a set; a key may carry no usable id. */
  datatype Key = Key(kid: Option<string>, material: nat)

  type Keys = seq<Key>

  function Kids(keys: Keys): set<string> {
    set key | key in keys && key.kid.Some? :: key.kid.value
  }

  /** A JSON value as it may appear in a claim: a string, a list, or anything else. */
  datatype Claim = Text(text: string) | List(items: seq<Claim>) | Other(tag: nat)

  /** What json.loads makes of the bytes of a JOSE header; nested TooDeep, they are refused with a RecursionError. */
  datatype Header = Unreadable | TooDeep | NotAnObject | Object(kid: Option<Claim>)

  datatype KidOutcome = Found(kid: string) | NotFound | Crash

  /** The `kid` member, if it is a string; a header that is no object has no members to ask for, and no ValueError. */
  function KidOf(h: Header): KidOutcome {
    match h
    case Object(Some(Text(kid))) => Found(kid)
    case NotAnObject => Crash
    case TooDeep => Crash
    case _ => NotFound
  }

  /** _token_kid: decode the first segment, parse it, read the member. */
  function TokenKid(json: seq<Byte> -> Header, token: string): KidOutcome {
    match Base64Url.HeaderBytes(token)
    case None => NotFound
    case Some(bytes) => KidOf(json(bytes))
  }

  /**
   The documentation promises None for every header that cannot be read.  The reader crashes exactly
   when Python's lenient decoder finds bytes in the first segment that are JSON and no object, or
   nested too deep; and every such header, written as a token whatever follows it, does it.  Any
   other written header gives its string `kid` or none.
   */
  lemma TokenKidCrashesExactlyWhen(json: seq<Byte> -> Header, token: string, header: seq<Byte>, rest: string)
    ensures TokenKid(json, token).Crash? <==>
            && Base64Url.HeaderBytes(token).Some?
            && (var h := json(Base64Url.HeaderBytes(token).value); h.NotAnObject? || h.TooDeep?)
    ensures var kid := TokenKid(json, Base64Url.Unpadded(header) + "." + rest);
            && (forall k :: kid == Found(k) <==> json(header) == Object(Some(Text(k))))
            && (kid.Crash? <==> json(header).NotAnObject? || json(header).TooDeep?)
  {
    Base64Url.HeaderIsReadBack(header, rest);
  }

  /** The empty list, well spelled and not, crashes the reader in front of any payload. */
  lemma EmptyListCrashes(json: seq<Byte> -> Header, rest: string)
    requires json([0x5B, 0x5D]).NotAnObject?
    ensures TokenKid(json, "W10." + rest).Crash? && TokenKid(json, "W11." + rest).Crash?
  {
    Base64Url.TwoSpellings();
    Base64Url.SegmentStopsAtTheDot("W10", rest);
    Base64Url.SegmentStopsAtTheDot("W11", rest);
    assert "W10." + rest == "W10" + "." + rest && "W11." + rest == "W11" + "." + rest;
  }

  const TTL_SECONDS: nat := 3600

  datatype Publication = Publication(keys: Keys, since: nat)

  datatype Entry = Entry(keys: Keys, expiresAt: nat)

  datatype Verdict =
    NoKid | Crashed | Decoded(keys: Keys, obtainedAt: nat) | UnknownKid(keys: Keys, obtainedAt: nat) | Failed

  datatype Phase =
    | Reading
    | Replied(cached: Option<Keys>, readAt: nat)
    | Discovering(forced: bool)
    | Fetching(forced: bool)
    | Writing(forced: bool, keys: Keys, fetchedAt: nat)
    | Done(verdict: Verdict)

  /** One validation, with the requests it has sent, and the key set it obtained first and whether from the cache. */
  datatype Validation = Validation(
    kid: Option<string>, startedAt: nat, phase: Phase,
    discoveries: nat, fills: nat, refetches: nat, first: Option<Keys>, fromCache: bool)

  /** A key set on its way into the cache. */
  datatype Fetched = Fetched(keys: Keys, at: nat)

  /** A cache write that reached Redis. */
  datatype Write = Write(keys: Keys, fetchedAt: nat, landedAt: nat)

  /** The key sets published, sent and written so far are history; the code reads none of it. */
  datatype World = World(
    now: nat, published: seq<Publication>, cache: Option<Entry>, sent: set<Fetched>, writes: seq<Write>,
    validations: map<nat, Validation>)

  datatype Event =
    | Start(v: nat, header: Header)
    | Reply(v: nat, readable: bool)
    | Resume(v: nat)
    | DiscoveryAnswers(v: nat, overNetwork: bool, ok: bool)
    | JwksAnswers(v: nat, ok: bool)
    | WriteLands(fetched: Fetched)
    | WriteReturns(v: nat, ok: bool)
    | Rotate(keys: Keys)
    | Evict
    | Tick(seconds: nat)

  function Initial(keys: Keys): World {
    World(0, [Publication(keys, 0)], None, {}, [], map[])
  }

  function Put(w: World, v: nat, validation: Validation): World {
    w.(validations := w.validations[v := validation])
  }

  function Finish(x: Validation, verdict: Verdict): Validation {
    x.(phase := Done(verdict))
  }

  /** A key set has been obtained: decode with it, refetch once, or give up. */
  function Consider(x: Validation, forced: bool, cached: bool, keys: Keys, obtainedAt: nat): Validation {
    var y := if x.first.None? then x.(first := Some(keys), fromCache := cached) else x;
    if x.kid.Some? && x.kid.value in Kids(keys) then Finish(y, Decoded(keys, obtainedAt))
    else if forced then Finish(y, UnknownKid(keys, obtainedAt))
    else y.(phase := Discovering(true))
  }

  function Visible(w: World): Option<Keys> {
    if w.cache.Some? && w.now < w.cache.value.expiresAt then Some(w.cache.value.keys) else None
  }

  function Current(w: World): Keys
    requires w.published != []
  {
    w.published[|w.published| - 1].keys
  }

  /** The validation after an event of its own, if the event fits its phase. */
  function Advance(w: World, x: Validation, e: Event): Validation
    requires w.published != []
  {
    match e
    case Reply(_, readable) =>
      if !x.phase.Reading? then x
      else if !readable then Finish(x, Failed)
      else x.(phase := Replied(Visible(w), w.now))
    case Resume(_) =>
      if !x.phase.Replied? then x
      else
        (match x.phase.cached
         case Some(keys) => Consider(x, false, true, keys, x.phase.readAt)
         case None => x.(phase := Discovering(false)))
    case DiscoveryAnswers(_, overNetwork, ok) =>
      if !x.phase.Discovering? then x
      else
        var asked := x.(discoveries := x.discoveries + if overNetwork then 1 else 0);
        if !ok then Finish(asked, Failed)
        else if x.phase.forced then asked.(phase := Fetching(true), refetches := x.refetches + 1)
        else asked.(phase := Fetching(false), fills := x.fills + 1)
    case JwksAnswers(_, ok) =>
      if !x.phase.Fetching? then x
      else if !ok || Current(w) == [] then Finish(x, Failed)
      else x.(phase := Writing(x.phase.forced, Current(w), w.now))
    case WriteReturns(_, ok) =>
      if !x.phase.Writing? then x
      else if !ok then Finish(x, Failed)
      else Consider(x, x.phase.forced, false, x.phase.keys, x.phase.fetchedAt)
    case _ => x
  }

  function Land(w: World, f: Fetched): World {
    w.(cache := Some(Entry(f.keys, w.now + TTL_SECONDS)), writes := w.writes + [Write(f.keys, f.at, w.now)])
  }

  /** What a validation that waits for a cache write has sent. */
  function Sent(x: Validation): set<Fetched> {
    if x.phase.Writing? then {Fetched(x.phase.keys, x.phase.fetchedAt)} else {}
  }

  /** A bearer without a usable key id is done before any request. */
  function Started(kid: KidOutcome, now: nat): Validation {
    match kid
    case Found(k) => Validation(Some(k), now, Reading, 0, 0, 0, None, false)
    case NotFound => Validation(None, now, Done(NoKid), 0, 0, 0, None, false)
    case Crash => Validation(None, now, Done(Crashed), 0, 0, 0, None, false)
  }

  function Step(w: World, e: Event): World
    requires w.published != []
  {
    match e
    case Start(v, header) =>
      if v in w.validations then w else Put(w, v, Started(KidOf(header), w.now))
    case WriteLands(f) => if f in w.sent then Land(w, f) else w
    case Rotate(keys) => w.(published := w.published + [Publication(keys, w.now)])
    case Evict => w.(cache := None)
    case Tick(seconds) => w.(now := w.now + seconds)
    case _ =>
      if e.v !in w.validations then w
      else
        var x := Advance(w, w.validations[e.v], e);
        Put(w.(sent := w.sent + Sent(x)), e.v, x)
  }

  function Run(w: World, events: seq<Event>): (w': World)
    requires w.published != []
    ensures w'.published != []
    decreases |events|
  {
    if events == [] then w else Run(Step(w, events[0]), events[1..])
  }

  // ---------------------------------------------------------------------------
  // The invariant
  // ---------------------------------------------------------------------------

  /** The provider's key set at time t (at the instant of a rotation, either side of it). */
  ghost predicate WasCurrent(w: World, keys: Keys, t: nat) {
    exists i: nat :: i < |w.published| && PublishedDuring(w, i, keys, t)
  }

  predicate PublishedDuring(w: World, i: nat, keys: Keys, t: nat)
    requires i < |w.published|
  {
    w.published[i].keys == keys && w.published[i].since <= t <= w.now
    && (i + 1 < |w.published| ==> t <= w.published[i + 1].since)
  }

  /** Write k put the key set into the cache, less than an hour before the time of use. */
  predicate FromWrite(w: World, k: nat, keys: Keys, usedAt: nat) {
    && k < |w.writes| && w.writes[k].keys == keys
    && w.writes[k].landedAt <= usedAt < w.writes[k].landedAt + TTL_SECONDS
  }

  /** Just fetched, or read from the cache within the hour of its write. */
  ghost predicate Fresh(w: World, keys: Keys, usedAt: nat) {
    usedAt <= w.now && (WasCurrent(w, keys, usedAt) || exists k: nat :: FromWrite(w, k, keys, usedAt))
  }

  ghost predicate WriteOk(w: World, write: Write) {
    WasCurrent(w, write.keys, write.fetchedAt) && write.fetchedAt <= write.landedAt <= w.now
  }

  /** The cache holds the newest write or nothing. */
  ghost predicate CacheOk(w: World) {
    && (forall k :: 0 <= k < |w.writes| ==> WriteOk(w, w.writes[k]))
    && (w.cache.Some? ==>
          && w.writes != []
          && var newest := w.writes[|w.writes| - 1];
             w.cache.value == Entry(newest.keys, newest.landedAt + TTL_SECONDS))
  }

  /** What a validation may have done by the time it is in a phase. */
  ghost predicate ValidationOk(w: World, x: Validation) {
    && (x.kid.None? ==> x.phase in {Done(NoKid), Done(Crashed)} && x.discoveries == x.fills == x.refetches == 0)
    && (x.first.Some? && x.fromCache ==> x.fills == 0)
    && (x.first.Some? && x.fromCache && x.kid.Some? && x.kid.value in Kids(x.first.value) ==>
          x.phase.Done? && x.phase.verdict.Decoded?)
    && x.startedAt <= w.now && x.discoveries <= x.fills + x.refetches + (if x.phase == Done(Failed) then 1 else 0)
    && (x.refetches > 0 ==> x.first.Some? && x.kid.Some? && x.kid.value !in Kids(x.first.value))
    && match x.phase
       case Reading => x.fills == x.refetches == x.discoveries == 0 && x.first.None?
       case Replied(cached, readAt) =>
         && x.fills == x.refetches == x.discoveries == 0 && x.first.None?
         && (cached.Some? ==> Fresh(w, cached.value, readAt))
       case Discovering(forced) =>
         && x.refetches == 0 && x.fills <= 1
         && (if forced then x.first.Some? && x.kid.Some? && x.kid.value !in Kids(x.first.value)
             else x.fills == 0 && x.first.None?)
       case Fetching(forced) =>
         x.fills <= 1 && (if forced then x.refetches == 1 else x.refetches == 0 && x.fills == 1 && x.first.None?)
       case Writing(forced, keys, at) =>
         && WasCurrent(w, keys, at) && x.startedAt <= at <= w.now
         && x.fills <= 1 && (if forced then x.refetches == 1 else x.refetches == 0 && x.fills == 1 && x.first.None?)
       case Done(verdict) =>
         && x.fills <= 1 && x.refetches <= 1
         && (verdict.Decoded? ==>
               && x.kid.Some? && x.kid.value in Kids(verdict.keys) && Fresh(w, verdict.keys, verdict.obtainedAt)
               && x.first.Some? && (x.refetches == 0 <==> x.kid.value in Kids(x.first.value)))
         && (verdict.UnknownKid? ==>
               && x.refetches == 1 && x.kid.Some? && x.kid.value !in Kids(verdict.keys)
               && WasCurrent(w, verdict.keys, verdict.obtainedAt) && x.startedAt <= verdict.obtainedAt <= w.now)
         && (verdict.NoKid? || verdict.Crashed? ==> x.kid.None?)
  }

  ghost predicate Inv(w: World) {
    && w.published != []
    && (forall i :: 0 <= i < |w.published| ==> w.published[i].since <= w.now)
    && CacheOk(w)
    && (forall f :: f in w.sent ==> WasCurrent(w, f.keys, f.at) && f.at <= w.now)
    && (forall v :: v in w.validations ==> ValidationOk(w, w.validations[v]))
  }

  /** Time passing and keys rotating later take nothing away from what was current. */
  ghost predicate Later(w: World, w': World) {
    w.now <= w'.now && w.published <= w'.published && w.writes <= w'.writes
    && forall i :: |w.published| <= i < |w'.published| ==> w'.published[i].since == w.now
  }

  lemma CurrentStaysCurrent(w: World, w': World, keys: Keys, t: nat)
    requires Later(w, w') && WasCurrent(w, keys, t)
    ensures WasCurrent(w', keys, t)
  {
    var i: nat :| i < |w.published| && PublishedDuring(w, i, keys, t);
    assert PublishedDuring(w', i, keys, t);
  }

  lemma FreshStaysFresh(w: World, w': World, keys: Keys, usedAt: nat)
    requires Later(w, w') && Fresh(w, keys, usedAt)
    ensures Fresh(w', keys, usedAt)
  {
    if WasCurrent(w, keys, usedAt) {
      CurrentStaysCurrent(w, w', keys, usedAt);
    } else {
      var k: nat :| FromWrite(w, k, keys, usedAt);
      assert FromWrite(w', k, keys, usedAt);
    }
  }

  lemma ValidationStaysOk(w: World, w': World, x: Validation)
    requires Later(w, w') && ValidationOk(w, x)
    ensures ValidationOk(w', x)
  {
    match x.phase {
      case Replied(cached, readAt) => if cached.Some? { FreshStaysFresh(w, w', cached.value, readAt); }
      case Writing(_, keys, at) => CurrentStaysCurrent(w, w', keys, at);
      case Done(Decoded(keys, at)) => FreshStaysFresh(w, w', keys, at);
      case Done(UnknownKid(keys, at)) => CurrentStaysCurrent(w, w', keys, at);
      case _ =>
    }
  }

  lemma VisibleIsFresh(w: World)
    requires CacheOk(w) && Visible(w).Some?
    ensures Fresh(w, Visible(w).value, w.now)
  {
    assert FromWrite(w, |w.writes| - 1, Visible(w).value, w.now);
  }

  lemma NowIsCurrent(w: World)
    requires w.published != [] && forall i :: 0 <= i < |w.published| ==> w.published[i].since <= w.now
    ensures WasCurrent(w, Current(w), w.now)
  {
    assert PublishedDuring(w, |w.published| - 1, Current(w), w.now);
  }

  lemma ConsiderKeepsOk(w: World, x: Validation, forced: bool, cached: bool, keys: Keys, at: nat)
    requires x.kid.Some? && x.fills <= 1 && x.discoveries <= x.fills + x.refetches && x.startedAt <= w.now
    requires Fresh(w, keys, at) && (forced ==> WasCurrent(w, keys, at) && x.startedAt <= at <= w.now)
    requires if forced then x.refetches == 1 && x.first.Some? && x.kid.value !in Kids(x.first.value)
             else x.refetches == 0 && x.first.None? && (cached ==> x.fills == 0)
    requires forced ==> (x.fromCache ==> x.fills == 0)
    ensures ValidationOk(w, Consider(x, forced, cached, keys, at))
  {
  }

  lemma AdvanceKeepsOk(w: World, x: Validation, e: Event)
    requires Inv(w) && ValidationOk(w, x)
    ensures ValidationOk(w, Advance(w, x, e))
  {
    match e {
      case Reply(_, _) => if Visible(w).Some? { VisibleIsFresh(w); }
      case Resume(_) =>
        if x.phase.Replied? && x.phase.cached.Some? {
          ConsiderKeepsOk(w, x, false, true, x.phase.cached.value, x.phase.readAt);
        }
      case JwksAnswers(_, _) => NowIsCurrent(w);
      case WriteReturns(_, _) =>
        if x.phase.Writing? {
          ConsiderKeepsOk(w, x, x.phase.forced, false, x.phase.keys, x.phase.fetchedAt);
        }
      case _ =>
    }
  }

  lemma StepKeepsCache(w: World, e: Event)
    requires Inv(w)
    ensures CacheOk(Step(w, e))
  {
    var w' := Step(w, e);
    forall k | 0 <= k < |w'.writes|
      ensures WriteOk(w', w'.writes[k])
    {
      if k < |w.writes| {
        CurrentStaysCurrent(w, w', w.writes[k].keys, w.writes[k].fetchedAt);
      } else {
        CurrentStaysCurrent(w, w', e.fetched.keys, e.fetched.at);
      }
    }
  }

  lemma StepKeepsSent(w: World, e: Event)
    requires Inv(w)
    ensures var w' := Step(w, e); forall f :: f in w'.sent ==> WasCurrent(w', f.keys, f.at) && f.at <= w'.now
  {
    var w' := Step(w, e);
    forall f | f in w'.sent
      ensures WasCurrent(w', f.keys, f.at) && f.at <= w'.now
    {
      if f !in w.sent { AdvanceKeepsOk(w, w.validations[e.v], e); }
      CurrentStaysCurrent(w, w', f.keys, f.at);
    }
  }

  lemma StepKeepsValidation(w: World, e: Event, v: nat)
    requires Inv(w) && v in Step(w, e).validations
    ensures ValidationOk(Step(w, e), Step(w, e).validations[v])
  {
    var w' := Step(w, e);
    StepIsLater(w, e);
    StepMoves(w, e, v);
    if v in w.validations {
      ValidationStaysOk(w, w', w.validations[v]);
      AdvanceKeepsOk(w, w.validations[v], e);
      ValidationStaysOk(w, w', Advance(w, w.validations[v], e));
    }
  }

  lemma StepIsLater(w: World, e: Event)
    requires w.published != []
    ensures Later(w, Step(w, e))
  {
  }

  /** A step starts a validation, moves one on, or leaves it. */
  lemma StepMoves(w: World, e: Event, v: nat)
    requires w.published != [] && v in Step(w, e).validations
    ensures var x := Step(w, e).validations[v];
            if v in w.validations then x == w.validations[v] || x == Advance(w, w.validations[v], e)
            else e.Start? && x == Started(KidOf(e.header), w.now) && Step(w, e).now == w.now
  {
  }

  lemma StepKeepsInvariant(w: World, e: Event)
    requires Inv(w)
    ensures Inv(Step(w, e))
  {
    var w' := Step(w, e);
    StepKeepsCache(w, e);
    StepKeepsSent(w, e);
    forall v | v in w'.validations
      ensures ValidationOk(w', w'.validations[v])
    {
      StepKeepsValidation(w, e, v);
    }
  }

  lemma {:induction false} RunKeepsInvariant(w: World, events: seq<Event>)
    requires Inv(w)
    ensures Inv(Run(w, events))
    decreases |events|
  {
    if events != [] {
      StepKeepsInvariant(w, events[0]);
      RunKeepsInvariant(Step(w, events[0]), events[1..]);
    }
  }

  // ---------------------------------------------------------------------------
  // What holds in every run
  // ---------------------------------------------------------------------------

  /**
   A bearer without a key id causes no request at all.  A validation whose first key set has the
   token's key id refetches nothing, and sends nothing at all when that set came from the cache;
   one whose first key set lacks it refetches exactly once before it decodes or rejects.  No
   validation ever fills the cache or refetches twice, and each discovery belongs to one of them.
   */
  lemma RequestsPerValidation(keys: Keys, events: seq<Event>, v: nat)
    requires v in Run(Initial(keys), events).validations
    ensures var x := Run(Initial(keys), events).validations[v];
            && (x.kid.None? ==> x.discoveries == x.fills == x.refetches == 0 && x.phase in {Done(NoKid), Done(Crashed)})
            && (x.kid.Some? && x.first.Some? && x.fromCache && x.kid.value in Kids(x.first.value) ==>
                  x.discoveries == x.fills == x.refetches == 0 && x.phase.Done? && x.phase.verdict.Decoded?)
            && x.fills <= 1 && x.refetches <= 1
            && (x.refetches == 1 ==> x.first.Some? && x.kid.value !in Kids(x.first.value))
            && (x.phase.Done? && (x.phase.verdict.Decoded? || x.phase.verdict.UnknownKid?) ==>
                  && x.first.Some? && (x.refetches == 1 <==> x.kid.value !in Kids(x.first.value))
                  && x.discoveries <= x.fills + x.refetches)
  {
    InitialIsSound(keys);
    RunKeepsInvariant(Initial(keys), events);
    assert ValidationOk(Run(Initial(keys), events), Run(Initial(keys), events).validations[v]);
  }

  lemma InitialIsSound(keys: Keys)
    ensures Inv(Initial(keys))
  {
  }

  /**
   A token is decoded only against a key set that contains its key id and that the provider really
   published: either it was in force when obtained, or it came out of the cache, less than an hour
   after a write of a set that had been in force when fetched.  So it was fetched less than 3600
   seconds plus the delay between that fetch and that write before it was obtained.
   */
  lemma DecodedAgainstPublishedKeys(keys: Keys, events: seq<Event>, v: nat)
    requires v in Run(Initial(keys), events).validations
    requires var p := Run(Initial(keys), events).validations[v].phase; p.Done? && p.verdict.Decoded?
    ensures var w := Run(Initial(keys), events);
            var x := w.validations[v];
            var at := x.phase.verdict.obtainedAt;
            && x.kid.Some? && x.kid.value in Kids(x.phase.verdict.keys)
            && (WasCurrent(w, x.phase.verdict.keys, at)
                || exists k: nat ::
                     && FromWrite(w, k, x.phase.verdict.keys, at)
                     && WasCurrent(w, x.phase.verdict.keys, w.writes[k].fetchedAt)
                     && at - w.writes[k].fetchedAt < 3600 + (w.writes[k].landedAt - w.writes[k].fetchedAt))
  {
    InitialIsSound(keys);
    RunKeepsInvariant(Initial(keys), events);
    var w := Run(Initial(keys), events);
    var verdict := w.validations[v].phase.verdict;
    assert ValidationOk(w, w.validations[v]);
    if !WasCurrent(w, verdict.keys, verdict.obtainedAt) {
      var k: nat :| FromWrite(w, k, verdict.keys, verdict.obtainedAt);
      assert WriteOk(w, w.writes[k]);
    }
  }

  /**
   Every write puts a key set into the cache that was in force when it was fetched; the cache only
   ever holds the newest of them, for at most an hour.
   */
  lemma CacheHoldsPublishedKeys(keys: Keys, events: seq<Event>)
    ensures var w := Run(Initial(keys), events);
            && (forall k :: 0 <= k < |w.writes| ==>
                  && WasCurrent(w, w.writes[k].keys, w.writes[k].fetchedAt)
                  && w.writes[k].fetchedAt <= w.writes[k].landedAt)
            && (w.cache.Some? ==>
                  && w.writes != [] && w.cache.value.keys == w.writes[|w.writes| - 1].keys
                  && w.cache.value.expiresAt == w.writes[|w.writes| - 1].landedAt + 3600 <= w.now + 3600)
  {
    InitialIsSound(keys);
    RunKeepsInvariant(Initial(keys), events);
    var w := Run(Initial(keys), events);
    forall k | 0 <= k < |w.writes|
      ensures WriteOk(w, w.writes[k])
    {
    }
  }

  /** A key id that every key set in force during the validation carries is never called unknown. */
  lemma PublishedKidIsNeverUnknown(keys: Keys, events: seq<Event>, v: nat)
    requires v in Run(Initial(keys), events).validations
    requires var w := Run(Initial(keys), events);
             var x := w.validations[v];
             && x.kid.Some?
             && forall inForce, t: nat ::
                  x.startedAt <= t <= w.now && WasCurrent(w, inForce, t) ==> x.kid.value in Kids(inForce)
    ensures var phase := Run(Initial(keys), events).validations[v].phase;
            phase.Done? ==> !phase.verdict.UnknownKid?
  {
    InitialIsSound(keys);
    RunKeepsInvariant(Initial(keys), events);
    assert ValidationOk(Run(Initial(keys), events), Run(Initial(keys), events).validations[v]);
  }

  /** An event that is not a turn of validation v. */
  predicate Foreign(e: Event, v: nat) {
    e.Rotate? || e.Evict? || e.Tick? || e.WriteLands? || e.v != v
  }

  lemma {:induction false} ForeignEventsLeaveItAlone(w: World, events: seq<Event>, v: nat)
    requires w.published != [] && v in w.validations && forall e :: e in events ==> Foreign(e, v)
    ensures v in Run(w, events).validations && Run(w, events).validations[v] == w.validations[v]
    decreases |events|
  {
    if events != [] {
      assert Foreign(events[0], v);
      assert forall e :: e in events[1..] ==> e in events;
      ForeignEventsLeaveItAlone(Step(w, events[0]), events[1..], v);
    }
  }

  lemma {:induction false} RunSplits(w: World, before: seq<Event>, after: seq<Event>)
    requires w.published != []
    ensures Run(w, before + after) == Run(Run(w, before), after)
    decreases |before|
  {
    if before == [] {
      assert before + after == after;
    } else {
      assert (before + after)[1..] == before[1..] + after;
      RunSplits(Step(w, before[0]), before[1..], after);
    }
  }

  /**
   Recovery from a rotation: once the refetch is answered with a key set carrying the token's key
   id, the token is decoded against exactly that set, whatever other validations, rotations and
   evictions happen before the cache write returns.
   */
  lemma RotationIsRecovered(w: World, events: seq<Event>, v: nat)
    requires Inv(w) && v in w.validations && w.validations[v].phase == Fetching(true)
    requires w.validations[v].kid.value in Kids(Current(w))
    requires forall e :: e in events ==> Foreign(e, v)
    ensures var w' := Run(w, [JwksAnswers(v, true)] + events + [WriteReturns(v, true)]);
            && v in w'.validations && w'.validations[v].phase == Done(Decoded(Current(w), w.now))
            && w'.validations[v].refetches == 1
  {
    assert ValidationOk(w, w.validations[v]);
    var answered := Step(w, JwksAnswers(v, true));
    var first, last := [JwksAnswers(v, true)], [WriteReturns(v, true)];
    RunSplits(w, first + events, last);
    RunSplits(w, first, events);
    assert first[1..] == [] && Run(w, first) == answered;
    ForeignEventsLeaveItAlone(answered, events, v);
    var waited := Run(answered, events);
    assert last[1..] == [] && Run(waited, last) == Step(waited, last[0]);
  }

  // ---------------------------------------------------------------------------
  // How a validation goes, whatever the others do in between
  // ---------------------------------------------------------------------------

  /** Some key of the set carries the id. */
  predicate Carries(keys: Keys, kid: string) {
    exists key :: key in keys && key.kid == Some(kid)
  }

  lemma CarriedIsAmongTheKids(keys: Keys, kid: string)
    ensures Carries(keys, kid) <==> kid in Kids(keys)
  {
  }

  /** After foreign events, a validation's own event moves it on from where it was. */
  lemma OwnEventAfterForeign(w: World, events: seq<Event>, e: Event, v: nat)
    requires w.published != [] && v in w.validations && !Foreign(e, v) && !e.Start?
    requires forall f :: f in events ==> Foreign(f, v)
    ensures var w' := Run(w, events + [e]);
            && v in w'.validations && w'.validations[v] == Advance(Run(w, events), w.validations[v], e)
            && w'.now == Run(w, events).now
  {
    ForeignEventsLeaveItAlone(w, events, v);
    RunSplits(w, events, [e]);
    assert [e][1..] == [];
    assert Run(Run(w, events), [e]) == Run(Step(Run(w, events), e), []);
  }

  /** A bearer with a string for its key id waits for the cache; any other is refused, or crashes the reader. */
  lemma WhoIsValidated(w: World, v: nat, header: Header)
    requires w.published != [] && v !in w.validations
    ensures var w' := Step(w, Start(v, header));
            && w' == w.(validations := w'.validations) && w'.validations.Keys == w.validations.Keys + {v}
            && (forall u :: u in w.validations ==> w'.validations[u] == w.validations[u])
            && w'.validations[v] ==
                 if header.Object? && header.kid.Some? && header.kid.value.Text?
                 then Validation(Some(header.kid.value.text), w.now, Reading, 0, 0, 0, None, false)
                 else if header.NotAnObject? || header.TooDeep?
                 then Validation(None, w.now, Done(Crashed), 0, 0, 0, None, false)
                 else Validation(None, w.now, Done(NoKid), 0, 0, 0, None, false)
  {
  }

  /**
   A key set that is in the cache when Redis answers is used: a key id in it is decoded against
   exactly that set without any request, and one that is not asks for the refetch.
   */
  lemma CachedSetIsUsed(w: World, v: nat, kid: string, between: seq<Event>)
    requires w.published != [] && v in w.validations
    requires w.validations[v] == Validation(Some(kid), w.validations[v].startedAt, Reading, 0, 0, 0, None, false)
    requires w.cache.Some? && w.now < w.cache.value.expiresAt
    requires forall e :: e in between ==> Foreign(e, v)
    ensures var keys := w.cache.value.keys;
            var w' := Run(Step(w, Reply(v, true)), between + [Resume(v)]);
            && v in w'.validations
            && w'.validations[v] == w.validations[v].(
                 first := Some(keys), fromCache := true,
                 phase := if Carries(keys, kid) then Done(Decoded(keys, w.now)) else Discovering(true))
  {
    OwnEventAfterForeign(Step(w, Reply(v, true)), between, Resume(v), v);
    CarriedIsAmongTheKids(w.cache.value.keys, kid);
  }

  /** With nothing unexpired in the cache the key set is fetched; a cache that cannot be read ends the validation. */
  lemma MissIsFetched(w: World, v: nat, between: seq<Event>)
    requires w.published != [] && v in w.validations && w.validations[v].phase.Reading?
    requires w.cache.None? || w.cache.value.expiresAt <= w.now
    requires forall e :: e in between ==> Foreign(e, v)
    ensures var w' := Run(Step(w, Reply(v, true)), between + [Resume(v)]);
            v in w'.validations && w'.validations[v] == w.validations[v].(phase := Discovering(false))
    ensures Step(w, Reply(v, false)).validations[v] == w.validations[v].(phase := Done(Failed))
  {
    OwnEventAfterForeign(Step(w, Reply(v, true)), between, Resume(v), v);
  }

  /** The successful answers of one fetch, with foreign events after each. */
  function Fetch(v: nat, overNetwork: bool, first: seq<Event>, second: seq<Event>): seq<Event> {
    [DiscoveryAnswers(v, overNetwork, true)] + first + ([JwksAnswers(v, true)] + second + [WriteReturns(v, true)])
  }

  /** The world in which the key-set request of such a fetch is answered. */
  function AtAnswer(w: World, v: nat, overNetwork: bool, first: seq<Event>): World
    requires w.published != []
  {
    Run(w, [DiscoveryAnswers(v, overNetwork, true)] + first)
  }

  /**
   A successful fetch ends with the set that is in force when the provider answers.  A key id in it is
   decoded against exactly that set; for one that is not, the first fetch is followed by the single
   refetch, and the refetch rejects.  One request for keys is counted, and one for the discovery
   document if that was not cached.
   */
  lemma FetchedSetIsUsed(w: World, v: nat, kid: string, overNetwork: bool, first: seq<Event>, second: seq<Event>)
    requires w.published != [] && v in w.validations && w.validations[v].phase.Discovering?
    requires w.validations[v].kid == Some(kid)
    requires forall e :: e in first || e in second ==> Foreign(e, v)
    requires Current(AtAnswer(w, v, overNetwork, first)) != []
    ensures var x, answered := w.validations[v], AtAnswer(w, v, overNetwork, first);
            var forced, keys := x.phase.forced, Current(answered);
            var w' := Run(w, Fetch(v, overNetwork, first, second));
            && v in w'.validations
            && w'.validations[v].phase ==
                 (if Carries(keys, kid) then Done(Decoded(keys, answered.now))
                  else if forced then Done(UnknownKid(keys, answered.now)) else Discovering(true))
            && w'.validations[v].discoveries == x.discoveries + (if overNetwork then 1 else 0)
            && w'.validations[v].fills == x.fills + (if forced then 0 else 1)
            && w'.validations[v].refetches == x.refetches + (if forced then 1 else 0)
            && w'.validations[v].first == (if x.first.None? then Some(keys) else x.first)
  {
    var asked := Step(w, DiscoveryAnswers(v, overNetwork, true));
    var answered := AtAnswer(w, v, overNetwork, first);
    var rest := [JwksAnswers(v, true)] + second + [WriteReturns(v, true)];
    SingleEvent(w, DiscoveryAnswers(v, overNetwork, true));
    RunSplits(w, [DiscoveryAnswers(v, overNetwork, true)], first);
    ForeignEventsLeaveItAlone(asked, first, v);
    RunSplits(w, [DiscoveryAnswers(v, overNetwork, true)] + first, rest);
    var writing := Step(answered, JwksAnswers(v, true));
    SingleEvent(answered, JwksAnswers(v, true));
    assert rest == [JwksAnswers(v, true)] + (second + [WriteReturns(v, true)]);
    RunSplits(answered, [JwksAnswers(v, true)], second + [WriteReturns(v, true)]);
    OwnEventAfterForeign(writing, second, WriteReturns(v, true), v);
    CarriedIsAmongTheKids(Current(answered), kid);
  }

  lemma SingleEvent(w: World, e: Event)
    requires w.published != []
    ensures Run(w, [e]) == Step(w, e)
  {
    assert [e][1..] == [];
    assert Run(Step(w, e), []) == Step(w, e);
  }

  /** Any failure on the way ends the validation, and so does a key set without keys. */
  lemma FailuresEndTheValidation(w: World, v: nat, overNetwork: bool)
    requires w.published != [] && v in w.validations
    ensures w.validations[v].phase.Discovering? ==>
              Step(w, DiscoveryAnswers(v, overNetwork, false)).validations[v].phase == Done(Failed)
    ensures w.validations[v].phase.Fetching? ==>
              && Step(w, JwksAnswers(v, false)).validations[v].phase == Done(Failed)
              && (Current(w) == [] ==> Step(w, JwksAnswers(v, true)).validations[v].phase == Done(Failed))
    ensures w.validations[v].phase.Writing? ==>
              Step(w, WriteReturns(v, false)).validations[v].phase == Done(Failed)
  {
  }

  /** A fetched set can be cached from its answer on; landed, it serves every reader for an hour. */
  lemma FetchedSetIsServedForAnHour(w: World, v: nat, between: seq<Event>, seconds: nat)
    requires w.published != [] && v in w.validations && w.validations[v].phase.Fetching? && Current(w) != []
    requires forall e :: e in between ==> Foreign(e, v)
    ensures var keys := Current(w);
            var waited := Run(Step(w, JwksAnswers(v, true)), between);
            var later := Step(Step(waited, WriteLands(Fetched(keys, w.now))), Tick(seconds));
            && later.cache == Some(Entry(keys, waited.now + 3600))
            && (Visible(later) == Some(keys) <==> seconds < 3600)
  {
    SentStays(Step(w, JwksAnswers(v, true)), between, Fetched(Current(w), w.now));
  }

  lemma {:induction false} SentStays(w: World, events: seq<Event>, f: Fetched)
    requires w.published != [] && f in w.sent
    ensures f in Run(w, events).sent
    decreases |events|
  {
    if events != [] { SentStays(Step(w, events[0]), events[1..], f); }
  }

  /** From a rotation to the next one exactly the new key set is in force. */
  lemma RotatedSetIsInForce(w: World, keys: Keys, events: seq<Event>)
    requires Inv(w) && forall e :: e in events ==> !e.Rotate?
    ensures var w' := Run(Step(w, Rotate(keys)), events);
            && Current(w') == keys
            && WasCurrent(w', keys, w'.now)
            && forall set_: Keys, t :: w.now < t && WasCurrent(w', set_, t) ==> set_ == keys
  {
    var rotated := Step(w, Rotate(keys));
    NothingElseRotates(rotated, events);
    var w', n := Run(rotated, events), |w.published|;
    assert w'.published == w.published + [Publication(keys, w.now)];
    assert PublishedDuring(w', n, keys, w'.now);
    forall set_: Keys, t | w.now < t && WasCurrent(w', set_, t) ensures set_ == keys {
      var i: nat :| i < |w'.published| && PublishedDuring(w', i, set_, t);
      assert forall j: nat :: j < n ==> w'.published[j] == w.published[j];
      assert i == n;
    }
  }

  lemma {:induction false} NothingElseRotates(w: World, events: seq<Event>)
    requires w.published != [] && forall e :: e in events ==> !e.Rotate?
    ensures Run(w, events).published == w.published && w.now <= Run(w, events).now
    decreases |events|
  {
    if events != [] { NothingElseRotates(Step(w, events[0]), events[1..]); }
  }

  /** An evicted set is no longer used: the next reader fetches. */
  lemma EvictedSetIsFetchedAgain(w: World, v: nat, between: seq<Event>)
    requires w.published != [] && v in w.validations && w.validations[v].phase.Reading?
    requires forall e :: e in between ==> Foreign(e, v)
    ensures var w' := Run(Step(Step(w, Evict), Reply(v, true)), between + [Resume(v)]);
            v in w'.validations && w'.validations[v] == w.validations[v].(phase := Discovering(false))
  {
    MissIsFetched(Step(w, Evict), v, between);
  }

  // ---------------------------------------------------------------------------
  // The stretches between awaits, as the code runs them
  // ---------------------------------------------------------------------------

  class Validator {
    var now: nat
    var published: seq<Publication>
    var cache: Option<Entry>
    var sent: set<Fetched>
    var writes: seq<Write>
    var validations: map<nat, Validation>

    function View(): World
      reads this
    {
      World(now, published, cache, sent, writes, validations)
    }

    constructor (keys: Keys)
      ensures View() == Initial(keys)
    {
      now, published, cache, sent, writes, validations := 0, [Publication(keys, 0)], None, {}, [], map[];
    }

    /** Reads the key id from the header; a bearer without one is refused before any await, if not by a crash. */
    method Begin(v: nat, header: Header)
      requires published != [] && v !in validations
      modifies `validations
      ensures View() == Step(old(View()), Start(v, header))
    {
      var x := Validation(None, now, Done(NoKid), 0, 0, 0, None, false);
      var kid := KidOf(header);
      if kid.Crash? {
        x := x.(phase := Done(Crashed));
      } else if kid.Found? {
        x := x.(kid := Some(kid.kid), phase := Reading);
      }
      validations := validations[v := x];
    }

    /** After the cache reply: use the cached set, or ask for the discovery document. */
    method AfterCacheReply(v: nat)
      requires published != [] && v in validations && validations[v].phase.Replied?
      modifies `validations
      ensures View() == Step(old(View()), Resume(v))
    {
      var phase := validations[v].phase;
      if phase.cached.Some? {
        Accept(v, false, true, phase.cached.value, phase.readAt);
      } else {
        validations := validations[v := validations[v].(phase := Discovering(false))];
      }
    }

    /** After the discovery answer: request the key set. */
    method AfterDiscovery(v: nat, overNetwork: bool, ok: bool)
      requires published != [] && v in validations && validations[v].phase.Discovering?
      modifies `validations
      ensures View() == Step(old(View()), DiscoveryAnswers(v, overNetwork, ok))
    {
      var x := validations[v];
      if overNetwork {
        x := x.(discoveries := x.discoveries + 1);
      }
      if !ok {
        x := x.(phase := Done(Failed));
      } else if x.phase.forced {
        x := x.(phase := Fetching(true), refetches := x.refetches + 1);
      } else {
        x := x.(phase := Fetching(false), fills := x.fills + 1);
      }
      validations := validations[v := x];
    }

    /** After the key-set answer: an error or a set without keys fails, anything else is written. */
    method AfterKeySet(v: nat, ok: bool)
      requires published != [] && v in validations && validations[v].phase.Fetching?
      modifies `validations, `sent
      ensures View() == Step(old(View()), JwksAnswers(v, ok))
    {
      var x := validations[v];
      var keys := published[|published| - 1].keys;
      if !ok || keys == [] {
        x := x.(phase := Done(Failed));
      } else {
        x := x.(phase := Writing(x.phase.forced, keys, now));
        sent := sent + {Fetched(keys, now)};
      }
      validations := validations[v := x];
    }

    /** After the write returned: the fetched set is the one considered. */
    method AfterWrite(v: nat, ok: bool)
      requires published != [] && v in validations && validations[v].phase.Writing?
      modifies `validations
      ensures View() == Step(old(View()), WriteReturns(v, ok))
    {
      var phase := validations[v].phase;
      if ok {
        Accept(v, phase.forced, false, phase.keys, phase.fetchedAt);
      } else {
        validations := validations[v := validations[v].(phase := Done(Failed))];
      }
    }

    /** A key set has been returned: decode with it, refetch once, or reject. */
    method Accept(v: nat, forced: bool, cached: bool, keys: Keys, obtainedAt: nat)
      requires v in validations
      modifies `validations
      ensures validations == old(validations)[v := Consider(old(validations[v]), forced, cached, keys, obtainedAt)]
    {
      var x := validations[v];
      if x.first.None? {
        x := x.(first := Some(keys), fromCache := cached);
      }
      if x.kid.Some? && x.kid.value in Kids(keys) {
        x := x.(phase := Done(Decoded(keys, obtainedAt)));
      } else if !forced {
        x := x.(phase := Discovering(true));
      } else {
        x := x.(phase := Done(UnknownKid(keys, obtainedAt)));
      }
      validations := validations[v := x];
    }
  }

  // ---------------------------------------------------------------------------
  // Audience
  // ---------------------------------------------------------------------------

  function Texts(items: seq<Claim>): (texts: seq<string>) {
    if items == [] then []
    else if items[0].Text? then [items[0].text] + Texts(items[1..])
    else Texts(items[1..])
  }

  function Audiences(aud: Option<Claim>): seq<string> {
    match aud
    case Some(Text(text)) => [text]
    case Some(List(items)) => Texts(items)
    case _ => []
  }

  /** The check the code performs. */
  predicate AudienceAccepted(client: string, aud: Option<Claim>, azp: Option<Claim>) {
    var audiences := Audiences(aud);
    client in audiences && (|audiences| > 1 ==> azp == Some(Text(client)))
  }

  /**
   Section 3.1.3.7 of OpenID Connect Core 1.0, steps 3 to 5: the client must be an audience, a
   token with several audiences must name an authorized party, and an authorized party that is
   present must be the client.
   */
  ghost predicate AudienceAdmitted(client: string, aud: Option<Claim>, azp: Option<Claim>) {
    && Addressed(client, aud)
    && (SeveralAudiences(aud) ==> azp.Some?)
    && (azp.Some? ==> azp.value == Text(client))
  }

  ghost predicate Addressed(client: string, aud: Option<Claim>) {
    match aud
    case Some(Text(text)) => text == client
    case Some(List(items)) => exists i :: 0 <= i < |items| && items[i] == Text(client)
    case _ => false
  }

  /** More than one audience that is a string. */
  ghost predicate SeveralAudiences(aud: Option<Claim>) {
    aud.Some? && aud.value.List?
    && exists i, j :: 0 <= i < j < |aud.value.items| && aud.value.items[i].Text? && aud.value.items[j].Text?
  }

  lemma {:induction false} TextsAre(items: seq<Claim>)
    ensures forall text :: text in Texts(items) <==> exists i :: 0 <= i < |items| && items[i] == Text(text)
    ensures |Texts(items)| > 0 <==> exists i :: 0 <= i < |items| && items[i].Text?
    ensures |Texts(items)| > 1 <==> exists i, j :: 0 <= i < j < |items| && items[i].Text? && items[j].Text?
  {
    if items != [] {
      var rest := items[1..];
      TextsAre(rest);
      assert items == [items[0]] + rest;
      forall i | 0 <= i < |rest|
        ensures rest[i] == items[i + 1]
      {
      }
    }
  }

  /**
   The check is the standard's, except that a present but foreign authorized party goes unnoticed
   when there is a single audience; that is the only difference.
   */
  lemma AudienceRuleExactly(client: string, aud: Option<Claim>, azp: Option<Claim>)
    ensures AudienceAdmitted(client, aud, azp) ==> AudienceAccepted(client, aud, azp)
    ensures AudienceAccepted(client, aud, azp) && !AudienceAdmitted(client, aud, azp) <==>
            Addressed(client, aud) && !SeveralAudiences(aud) && azp.Some? && azp.value != Text(client)
  {
    if aud.Some? && aud.value.List? {
      TextsAre(aud.value.items);
    }
  }
}
