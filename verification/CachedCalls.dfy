/**
 The `cached` wrapper of backend/cache.py over one shared Redis.  Calls of any cached functions
 interleave at their awaits: a call looks its key up and either answers or runs its function, and
 some time later the function ends and its result is stored.  Redis may fail on a read or a write,
 entries expire, and keys or patterns are invalidated.  What a function computes is an input.
 */
module CachedCalls {
  import opened Options
  import opened CacheKeys

  /** A Python result as json sees it: an Object is anything that only its str() represents. */
  datatype Value =
    | Nothing
    | Truth(truth: bool)
    | Number(number: int)
    | Text(text: string)
    | List(items: Values)
    | Tuple(items: Values)
    | Dict(fields: Fields)
    | Object(shown: string)

  datatype Values = NoMore | More(first: Value, rest: Values)

  /** A dictionary with string keys, in insertion order. */
  datatype Fields = NoField | Field(name: string, value: Value, others: Fields)

  /** json.loads(json.dumps(value, default=str)): tuples come back as lists, objects as their text. */
  function Json(v: Value): Value {
    match v
    case List(items) => List(JsonAll(items))
    case Tuple(items) => List(JsonAll(items))
    case Dict(fields) => Dict(JsonFields(fields))
    case Object(shown) => Text(shown)
    case _ => v
  }

  function JsonAll(items: Values): Values {
    match items
    case NoMore => NoMore
    case More(first, rest) => More(Json(first), JsonAll(rest))
  }

  function JsonFields(fields: Fields): Fields {
    match fields
    case NoField => NoField
    case Field(name, value, others) => Field(name, Json(value), JsonFields(others))
  }

  /** Free of tuples and of objects, at every depth. */
  predicate Native(v: Value) {
    match v
    case List(items) => NativeAll(items)
    case Dict(fields) => NativeFields(fields)
    case Tuple(_) => false
    case Object(_) => false
    case _ => true
  }

  predicate NativeAll(items: Values) {
    items.More? ==> Native(items.first) && NativeAll(items.rest)
  }

  predicate NativeFields(fields: Fields) {
    fields.Field? ==> Native(fields.value) && NativeFields(fields.others)
  }

  /** The round trip through JSON keeps exactly the native values, and its result is native. */
  lemma {:induction false} JsonKeepsNativeExactly(v: Value)
    ensures Json(v) == v <==> Native(v)
    ensures Native(Json(v))
    decreases v
  {
    match v {
      case List(items) => JsonKeepsNativeItems(items);
      case Tuple(items) => JsonKeepsNativeItems(items);
      case Dict(fields) => JsonKeepsNativeFields(fields);
      case _ =>
    }
  }

  lemma {:induction false} JsonKeepsNativeItems(items: Values)
    ensures JsonAll(items) == items <==> NativeAll(items)
    ensures NativeAll(JsonAll(items))
    decreases items
  {
    if items.More? {
      JsonKeepsNativeExactly(items.first);
      JsonKeepsNativeItems(items.rest);
    }
  }

  lemma {:induction false} JsonKeepsNativeFields(fields: Fields)
    ensures JsonFields(fields) == fields <==> NativeFields(fields)
    ensures NativeFields(JsonFields(fields))
    decreases fields
  {
    if fields.Field? {
      JsonKeepsNativeExactly(fields.value);
      JsonKeepsNativeFields(fields.others);
    }
  }

  function Elements(items: Values): seq<Value> {
    match items
    case NoMore => []
    case More(first, rest) => [first] + Elements(rest)
  }

  /** Lists and tuples alike come back as the list of what their elements come back as. */
  lemma {:induction false} JsonIsElementwise(items: Values, k: nat)
    requires k < |Elements(items)|
    ensures Json(List(items)) == Json(Tuple(items)) && Json(List(items)).List?
    ensures var back := Elements(Json(List(items)).items);
            |back| == |Elements(items)| && back[k] == Json(Elements(items)[k])
    decreases items
  {
    ElementsOfJson(items);
    if k > 0 { JsonIsElementwise(items.rest, k - 1); }
  }

  lemma {:induction false} ElementsOfJson(items: Values)
    ensures |Elements(JsonAll(items))| == |Elements(items)|
    decreases items
  {
    if items.More? { ElementsOfJson(items.rest); }
  }

  /** A dictionary keeps its names in order, and an object leaves its text behind. */
  lemma JsonKeepsNames(name: string, value: Value, others: Fields, shown: string)
    ensures Json(Dict(NoField)) == Dict(NoField)
    ensures Json(Dict(Field(name, value, others))) == Dict(Field(name, Json(value), Json(Dict(others)).fields))
    ensures Json(Object(shown)) == Text(shown)
  {
  }

  // ---------------------------------------------------------------------------
  // The machine
  // ---------------------------------------------------------------------------

  datatype Outcome = Returned(value: Value) | Raised(error: string)

  /** How a call ends whose key cannot be built. */
  const KEY_ERROR := Raised("TypeError")

  datatype Entry = Entry(value: Value, expiresAt: int)

  /** A call whose function is running. */
  datatype Pending = Pending(call: Call, key: string, ttl: int)

  /** A result that reached the store. */
  datatype Stored = Stored(key: string, value: Value, at: nat, ttl: int)

  /** What a call was answered. */
  datatype Served = Served(call: Call, outcome: Outcome, hit: bool, at: nat)

  /** What was stored and served is history; the code reads neither. */
  datatype World = World(
    now: nat, store: map<string, Entry>, pending: map<nat, Pending>, stored: seq<Stored>, served: seq<Served>)

  datatype Event =
    | LookUp(id: nat, call: Call, ttl: int, readable: bool)
    | Finish(id: nat, outcome: Outcome, writable: bool)
    | Invalidate(key: string, reached: bool)
    | InvalidatePattern(head: string, reached: bool)
    | Tick(seconds: nat)

  const INITIAL := World(0, map[], map[], [], [])

  predicate Visible(w: World, key: string) {
    key in w.store && w.now < w.store[key].expiresAt
  }

  function Serve(w: World, call: Call, outcome: Outcome, hit: bool): World {
    w.(served := w.served + [Served(call, outcome, hit, w.now)])
  }

  /** The store after a computed result: a failing write and a lifetime Redis rejects change nothing. */
  function Save(w: World, key: string, value: Value, ttl: int, writable: bool): World {
    if writable && ttl > 0
    then
      w.(store := w.store[key := Entry(Json(value), w.now + ttl)],
         stored := w.stored + [Stored(key, value, w.now, ttl)])
    else w
  }

  /** The first half of the wrapper: a readable, unexpired entry answers, anything else runs the function. */
  function Begun(w: World, id: nat, key: string, call: Call, ttl: int, readable: bool): World {
    if readable && Visible(w, key) then Serve(w, call, Returned(w.store[key].value), true)
    else w.(pending := w.pending[id := Pending(call, key, ttl)])
  }

  /** The second half: an exception passes through, a result is stored if it can be and returned as computed. */
  function Ended(w: World, id: nat, outcome: Outcome, writable: bool): World
    requires id in w.pending
  {
    var p := w.pending[id];
    var rest := w.(pending := w.pending - {id});
    match outcome
    case Returned(value) => Serve(Save(rest, p.key, value, p.ttl, writable), p.call, outcome, false)
    case Raised(_) => Serve(rest, p.call, outcome, false)
  }

  function Step(keyOf: Call -> Option<string>, w: World, e: Event): World {
    match e
    case LookUp(id, call, ttl, readable) =>
      if id in w.pending then w
      else
        (match keyOf(call)
         case None => Serve(w, call, KEY_ERROR, false)
         case Some(key) => Begun(w, id, key, call, ttl, readable))
    case Finish(id, outcome, writable) =>
      if id in w.pending then Ended(w, id, outcome, writable) else w
    case Invalidate(key, reached) =>
      if reached then w.(store := w.store - {key}) else w
    case InvalidatePattern(head, reached) =>
      if reached then w.(store := map key | key in w.store && !(head <= key) :: w.store[key]) else w
    case Tick(seconds) => w.(now := w.now + seconds)
  }

  function Run(keyOf: Call -> Option<string>, w: World, events: seq<Event>): World
    decreases |events|
  {
    if events == [] then w else Run(keyOf, Step(keyOf, w, events[0]), events[1..])
  }

  // ---------------------------------------------------------------------------
  // Where answers come from
  // ---------------------------------------------------------------------------

  predicate EntryFrom(w: World, key: string, k: nat)
    requires key in w.store
  {
    && k < |w.stored| && w.stored[k].key == key && w.stored[k].at <= w.now
    && w.store[key] == Entry(Json(w.stored[k].value), w.stored[k].at + w.stored[k].ttl)
  }

  /** A hit: the JSON form of a result stored under the call's key, within its lifetime. */
  predicate HitFrom(keyOf: Call -> Option<string>, w: World, served: Served, k: nat) {
    && k < |w.stored| && keyOf(served.call) == Some(w.stored[k].key)
    && served.outcome == Returned(Json(w.stored[k].value))
    && w.stored[k].at <= served.at < w.stored[k].at + w.stored[k].ttl
  }

  ghost predicate Inv(keyOf: Call -> Option<string>, w: World) {
    && (forall key :: key in w.store ==> exists k: nat :: EntryFrom(w, key, k))
    && (forall i :: 0 <= i < |w.served| && w.served[i].hit ==> exists k: nat :: HitFrom(keyOf, w, w.served[i], k))
  }

  /** More history and a later clock keep what was said about old entries and answers. */
  lemma HistoryStays(keyOf: Call -> Option<string>, w: World, w': World)
    requires Inv(keyOf, w) && w.now <= w'.now && w.stored <= w'.stored
    ensures forall key :: key in w'.store && key in w.store && w'.store[key] == w.store[key] ==>
              exists k: nat :: EntryFrom(w', key, k)
    ensures forall i :: 0 <= i < |w.served| && w.served[i].hit ==>
              exists k: nat :: HitFrom(keyOf, w', w.served[i], k)
  {
    forall key | key in w'.store && key in w.store && w'.store[key] == w.store[key]
      ensures exists k: nat :: EntryFrom(w', key, k)
    {
      var k: nat :| EntryFrom(w, key, k);
      assert EntryFrom(w', key, k);
    }
    forall i | 0 <= i < |w.served| && w.served[i].hit
      ensures exists k: nat :: HitFrom(keyOf, w', w.served[i], k)
    {
      var k: nat :| HitFrom(keyOf, w, w.served[i], k);
      assert HitFrom(keyOf, w', w.served[i], k);
    }
  }

  lemma HitKeepsInvariant(keyOf: Call -> Option<string>, w: World, call: Call, key: string)
    requires Inv(keyOf, w) && keyOf(call) == Some(key) && Visible(w, key)
    ensures Inv(keyOf, Serve(w, call, Returned(w.store[key].value), true))
  {
    var w' := Serve(w, call, Returned(w.store[key].value), true);
    HistoryStays(keyOf, w, w');
    var k: nat :| EntryFrom(w, key, k);
    assert HitFrom(keyOf, w', w'.served[|w.served|], k);
  }

  lemma SaveKeepsInvariant(keyOf: Call -> Option<string>, w: World, key: string, value: Value, ttl: int, writable: bool)
    requires Inv(keyOf, w)
    ensures Inv(keyOf, Save(w, key, value, ttl, writable))
  {
    var w' := Save(w, key, value, ttl, writable);
    HistoryStays(keyOf, w, w');
    if w' != w {
      assert EntryFrom(w', key, |w.stored|);
    }
  }

  lemma MissKeepsInvariant(keyOf: Call -> Option<string>, w: World, call: Call, outcome: Outcome)
    requires Inv(keyOf, w)
    ensures Inv(keyOf, Serve(w, call, outcome, false))
  {
    HistoryStays(keyOf, w, Serve(w, call, outcome, false));
  }

  lemma StepKeepsInvariant(keyOf: Call -> Option<string>, w: World, e: Event)
    requires Inv(keyOf, w)
    ensures Inv(keyOf, Step(keyOf, w, e))
  {
    match e {
      case LookUp(id, call, _, readable) =>
        if id !in w.pending && keyOf(call).None? {
          MissKeepsInvariant(keyOf, w, call, KEY_ERROR);
        } else if id !in w.pending && readable && Visible(w, keyOf(call).value) {
          HitKeepsInvariant(keyOf, w, call, keyOf(call).value);
        } else {
          HistoryStays(keyOf, w, Step(keyOf, w, e));
        }
      case Finish(id, outcome, writable) =>
        if id in w.pending {
          var p := w.pending[id];
          var rest := w.(pending := w.pending - {id});
          HistoryStays(keyOf, w, rest);
          if outcome.Returned? {
            SaveKeepsInvariant(keyOf, rest, p.key, outcome.value, p.ttl, writable);
            MissKeepsInvariant(keyOf, Save(rest, p.key, outcome.value, p.ttl, writable), p.call, outcome);
          } else {
            MissKeepsInvariant(keyOf, rest, p.call, outcome);
          }
        }
      case _ => HistoryStays(keyOf, w, Step(keyOf, w, e));
    }
  }

  lemma {:induction false} RunKeepsInvariant(keyOf: Call -> Option<string>, w: World, events: seq<Event>)
    requires Inv(keyOf, w)
    ensures Inv(keyOf, Run(keyOf, w, events))
    decreases |events|
  {
    if events != [] {
      StepKeepsInvariant(keyOf, w, events[0]);
      RunKeepsInvariant(keyOf, Step(keyOf, w, events[0]), events[1..]);
    }
  }

  /** In every run, a hit is the JSON form of a result stored under the same key and not yet expired. */
  lemma HitsAreStoredResults(keyOf: Call -> Option<string>, events: seq<Event>, i: nat) returns (k: nat)
    requires i < |Run(keyOf, INITIAL, events).served| && Run(keyOf, INITIAL, events).served[i].hit
    ensures var w := Run(keyOf, INITIAL, events);
            HitFrom(keyOf, w, w.served[i], k)
  {
    RunKeepsInvariant(keyOf, INITIAL, events);
    k :| HitFrom(keyOf, Run(keyOf, INITIAL, events), Run(keyOf, INITIAL, events).served[i], k);
  }

  // ---------------------------------------------------------------------------
  // What a call is answered, and for how long
  // ---------------------------------------------------------------------------

  /** A call that finds nothing it can read runs its function. */
  lemma MissRunsTheFunction(keyOf: Call -> Option<string>, w: World, id: nat, call: Call, ttl: int, readable: bool)
    requires id !in w.pending && keyOf(call).Some?
    requires !readable || keyOf(call).value !in w.store || w.store[keyOf(call).value].expiresAt <= w.now
    ensures Step(keyOf, w, LookUp(id, call, ttl, readable))
            == w.(pending := w.pending[id := Pending(call, keyOf(call).value, ttl)])
  {
  }

  /** It is answered what the function gave, and only a returned value with a positive lifetime can be stored. */
  lemma FunctionsAnswerIsPassedOn(keyOf: Call -> Option<string>, w: World, id: nat, outcome: Outcome, writable: bool)
    requires id in w.pending
    ensures var p, w' := w.pending[id], Step(keyOf, w, Finish(id, outcome, writable));
            && w'.served == w.served + [Served(p.call, outcome, false, w.now)]
            && w'.pending == w.pending - {id} && w'.now == w.now
            && (outcome.Raised? || !writable || p.ttl <= 0 ==> w'.store == w.store)
            && (outcome.Returned? && writable && p.ttl > 0 ==>
                  w'.store == w.store[p.key := Entry(Json(outcome.value), w.now + p.ttl)])
  {
  }

  /** Nothing among the events deletes the key, and no call with the key fails to read the cache. */
  predicate Spares(keyOf: Call -> Option<string>, events: seq<Event>, key: string) {
    forall e :: e in events ==>
      && (e.Invalidate? ==> e.key != key || !e.reached)
      && (e.InvalidatePattern? ==> !(e.head <= key) || !e.reached)
      && (e.LookUp? && keyOf(e.call) == Some(key) ==> e.readable)
  }

  lemma {:induction false} TimeOnlyPasses(keyOf: Call -> Option<string>, w: World, events: seq<Event>)
    ensures w.now <= Run(keyOf, w, events).now
    decreases |events|
  {
    if events != [] { TimeOnlyPasses(keyOf, Step(keyOf, w, events[0]), events[1..]); }
  }

  lemma {:induction false} EntryLasts(keyOf: Call -> Option<string>, w: World, events: seq<Event>, key: string)
    requires key in w.store && NobodyComputes(w, key) && Spares(keyOf, events, key)
    requires Run(keyOf, w, events).now < w.store[key].expiresAt
    ensures key in Run(keyOf, w, events).store && Run(keyOf, w, events).store[key] == w.store[key]
    decreases |events|
  {
    if events != [] {
      TimeOnlyPasses(keyOf, w, events);
      assert events[0] in events && forall e :: e in events[1..] ==> e in events;
      EntryLasts(keyOf, Step(keyOf, w, events[0]), events[1..], key);
    }
  }

  /**
   A stored result answers every readable call with its key until its lifetime is over, whatever other
   calls, failures and invalidations come between; from then on the function runs again.
   */
  lemma StoredResultIsServedItsWholeLife(
      keyOf: Call -> Option<string>, w: World, id: nat, value: Value, events: seq<Event>, next: Event)
    requires id in w.pending && w.pending[id].ttl > 0
    requires forall other :: other in w.pending && other != id ==> w.pending[other].key != w.pending[id].key
    requires Spares(keyOf, events, w.pending[id].key)
    requires next.LookUp? && next.readable && keyOf(next.call) == Some(w.pending[id].key)
    ensures var p, stored := w.pending[id], Step(keyOf, w, Finish(id, Returned(value), true));
            var later := Run(keyOf, stored, events);
            later.now < w.now + p.ttl && next.id !in later.pending ==>
              Step(keyOf, later, next)
                == later.(served := later.served + [Served(next.call, Returned(Json(value)), true, later.now)])
    ensures var p, stored := w.pending[id], Step(keyOf, w, Finish(id, Returned(value), true));
            forall seconds: nat :: p.ttl <= seconds && next.id !in stored.pending ==>
              next.id in Step(keyOf, Step(keyOf, stored, Tick(seconds)), next).pending
  {
    var stored := Step(keyOf, w, Finish(id, Returned(value), true));
    if Run(keyOf, stored, events).now < w.now + w.pending[id].ttl {
      EntryLasts(keyOf, stored, events, w.pending[id].key);
    }
  }

  // ---------------------------------------------------------------------------
  // Against the plain function
  // ---------------------------------------------------------------------------

  /** Only the given calls are made, and whenever a call's function ends it gave its one answer. */
  predicate Honest(keyOf: Call -> Option<string>, f: Call -> Outcome, calls: set<Call>, w: World, events: seq<Event>)
    decreases |events|
  {
    events != [] ==>
      && (events[0].LookUp? ==> events[0].call in calls)
      && (events[0].Finish? && events[0].id in w.pending ==> events[0].outcome == f(w.pending[events[0].id].call))
      && Honest(keyOf, f, calls, Step(keyOf, w, events[0]), events[1..])
  }

  /** Every answer given so far is the plain function's. */
  predicate AnsweredPlainly(f: Call -> Outcome, w: World) {
    forall i :: 0 <= i < |w.served| ==> w.served[i].outcome == f(w.served[i].call)
  }

  /**
   A call without a key fails in just that way by itself, results survive JSON, and calls that share
   a key with a returning call share its answer.
   */
  predicate Faithful(keyOf: Call -> Option<string>, f: Call -> Outcome, calls: set<Call>) {
    && (forall c :: c in calls && keyOf(c).None? ==> f(c) == KEY_ERROR)
    && (forall c :: c in calls && f(c).Returned? ==> Native(f(c).value))
    && (forall c, d :: c in calls && d in calls && keyOf(c).Some? && keyOf(c) == keyOf(d) && f(c).Returned? ==>
          f(d) == f(c))
  }

  /** Every entry holds what each call with its key would return; running calls are known and filed under their keys. */
  predicate StoreAgrees(keyOf: Call -> Option<string>, f: Call -> Outcome, calls: set<Call>, w: World) {
    && (forall c :: c in calls && keyOf(c).Some? && keyOf(c).value in w.store ==>
          f(c) == Returned(w.store[keyOf(c).value].value))
    && (forall id :: id in w.pending ==>
          w.pending[id].call in calls && keyOf(w.pending[id].call) == Some(w.pending[id].key))
  }

  lemma StepAnswersPlainly(keyOf: Call -> Option<string>, f: Call -> Outcome, calls: set<Call>, w: World, e: Event)
    requires Faithful(keyOf, f, calls) && StoreAgrees(keyOf, f, calls, w) && AnsweredPlainly(f, w)
    requires e.LookUp? ==> e.call in calls
    requires e.Finish? && e.id in w.pending ==> e.outcome == f(w.pending[e.id].call)
    ensures StoreAgrees(keyOf, f, calls, Step(keyOf, w, e)) && AnsweredPlainly(f, Step(keyOf, w, e))
  {
    if e.Finish? && e.id in w.pending && e.outcome.Returned? {
      JsonKeepsNativeExactly(e.outcome.value);
    }
  }

  lemma {:induction false} RunAnswersPlainly(
      keyOf: Call -> Option<string>, f: Call -> Outcome, calls: set<Call>, w: World, events: seq<Event>)
    requires Faithful(keyOf, f, calls) && StoreAgrees(keyOf, f, calls, w) && AnsweredPlainly(f, w)
    requires Honest(keyOf, f, calls, w, events)
    ensures AnsweredPlainly(f, Run(keyOf, w, events))
    decreases |events|
  {
    if events != [] {
      StepAnswersPlainly(keyOf, f, calls, w, events[0]);
      RunAnswersPlainly(keyOf, f, calls, Step(keyOf, w, events[0]), events[1..]);
    }
  }

  ghost predicate AlwaysPlain(keyOf: Call -> Option<string>, f: Call -> Outcome, calls: set<Call>) {
    forall events :: Honest(keyOf, f, calls, INITIAL, events) ==> AnsweredPlainly(f, Run(keyOf, INITIAL, events))
  }

  function OneThenOther(f: Call -> Outcome, c: Call, d: Call): seq<Event> {
    [LookUp(0, c, 1, true), Finish(0, f(c), true), LookUp(1, d, 1, true)]
  }

  /** One call right after another with the same key is answered from the first one's result. */
  lemma SecondCallHits(keyOf: Call -> Option<string>, f: Call -> Outcome, calls: set<Call>, c: Call, d: Call)
    requires c in calls && d in calls && f(c).Returned? && keyOf(c).Some? && keyOf(c) == keyOf(d)
    ensures Honest(keyOf, f, calls, INITIAL, OneThenOther(f, c, d))
    ensures var w := Run(keyOf, INITIAL, OneThenOther(f, c, d));
            |w.served| == 2 && w.served[1] == Served(d, Returned(Json(f(c).value)), true, 0)
  {
    var events := OneThenOther(f, c, d);
    assert events[1..] == [events[1], events[2]] && events[1..][1..] == [events[2]] && events[1..][1..][1..] == [];
    var begun := Step(keyOf, INITIAL, events[0]);
    var ended := Step(keyOf, begun, events[1]);
    var hit := Step(keyOf, ended, events[2]);
    assert ended.pending == map[] && Visible(ended, keyOf(d).value);
    assert Honest(keyOf, f, calls, hit, []) && Run(keyOf, hit, []) == hit;
    assert Honest(keyOf, f, calls, ended, [events[2]]) && Run(keyOf, ended, [events[2]]) == hit;
    assert Honest(keyOf, f, calls, begun, events[1..]) && Run(keyOf, begun, events[1..]) == hit;
  }

  /**
   For a function that gives one answer per call, the wrapper answers every interleaved run of
   calls, failures, expiries and invalidations as the plain function would exactly when the
   returned results survive JSON, no two of the calls share a key without sharing the answer, and
   every call for which no key can be built fails in that very way by itself.
   */
  lemma RefinesPlainExactlyWhenFaithful(keyOf: Call -> Option<string>, f: Call -> Outcome, calls: set<Call>)
    ensures AlwaysPlain(keyOf, f, calls) <==> Faithful(keyOf, f, calls)
  {
    if Faithful(keyOf, f, calls) {
      forall events | Honest(keyOf, f, calls, INITIAL, events)
        ensures AnsweredPlainly(f, Run(keyOf, INITIAL, events))
      {
        RunAnswersPlainly(keyOf, f, calls, INITIAL, events);
      }
    }
    if AlwaysPlain(keyOf, f, calls) {
      forall c | c in calls && keyOf(c).None?
        ensures f(c) == KEY_ERROR
      {
        KeylessCallFails(keyOf, f, calls, c);
        var w := Run(keyOf, INITIAL, [LookUp(0, c, 1, true)]);
        assert AnsweredPlainly(f, w) && w.served[0] == Served(c, KEY_ERROR, false, 0);
      }
      forall c, d | c in calls && d in calls && keyOf(c).Some? && keyOf(c) == keyOf(d) && f(c).Returned?
        ensures f(d) == Returned(Json(f(c).value))
      {
        SecondCallHits(keyOf, f, calls, c, d);
        assert AnsweredPlainly(f, Run(keyOf, INITIAL, OneThenOther(f, c, d)));
      }
      forall c | c in calls && f(c).Returned?
        ensures Native(f(c).value)
      {
        assert keyOf(c).Some? && f(c) == Returned(Json(f(c).value));
        JsonKeepsNativeExactly(f(c).value);
      }
    }
  }

  lemma KeylessCallFails(keyOf: Call -> Option<string>, f: Call -> Outcome, calls: set<Call>, c: Call)
    requires c in calls && keyOf(c).None?
    ensures Honest(keyOf, f, calls, INITIAL, [LookUp(0, c, 1, true)])
    ensures Run(keyOf, INITIAL, [LookUp(0, c, 1, true)]).served == [Served(c, KEY_ERROR, false, 0)]
  {
    var events := [LookUp(0, c, 1, true)];
    var failed := Step(keyOf, INITIAL, events[0]);
    assert events[1..] == [];
    assert Honest(keyOf, f, calls, failed, []) && Run(keyOf, failed, []) == failed;
  }

  /**
   With the default key builder and a function that does not raise that error itself: exactly when
   no call passes a keyword named `prefix`, results survive JSON, and no key collides.
   */
  lemma DefaultRefinesPlainExactlyWhen(digest: string -> string, f: Call -> Outcome, calls: set<Call>)
    requires forall c :: c in calls ==> f(c) != KEY_ERROR
    ensures AlwaysPlain(DefaultKey(digest), f, calls) <==>
            && (forall c :: c in calls ==> !NamesPrefix(c))
            && (forall c :: c in calls && f(c).Returned? ==> Native(f(c).value))
            && (forall c, d :: c in calls && d in calls && Key(digest, c) == Key(digest, d) && f(c).Returned? ==>
                  f(d) == f(c))
  {
    RefinesPlainExactlyWhenFaithful(DefaultKey(digest), f, calls);
  }

  /** One such call is enough: the function would have returned, the wrapper raises. */
  lemma PrefixKeywordBreaksTheCall(digest: string -> string, f: Call -> Outcome, name: string, value: Arg)
    requires f(Call("", name, [], [Keyword("prefix", value)])).Returned?
    ensures !AlwaysPlain(DefaultKey(digest), f, {Call("", name, [], [Keyword("prefix", value)])})
  {
    var c := Call("", name, [], [Keyword("prefix", value)]);
    assert c.kwargs[0].name == "prefix" && NamesPrefix(c);
    RefinesPlainExactlyWhenFaithful(DefaultKey(digest), f, {c});
  }

  // ---------------------------------------------------------------------------
  // Invalidation
  // ---------------------------------------------------------------------------

  /** No running call will store under the key. */
  predicate NobodyComputes(w: World, key: string) {
    forall id :: id in w.pending ==> w.pending[id].key != key
  }

  lemma {:induction false} AbsentStaysAbsent(keyOf: Call -> Option<string>, w: World, events: seq<Event>, key: string)
    requires key !in w.store && NobodyComputes(w, key)
    requires forall e :: e in events && e.LookUp? ==> keyOf(e.call) != Some(key)
    ensures key !in Run(keyOf, w, events).store
    decreases |events|
  {
    if events != [] {
      assert events[0] in events && forall e :: e in events[1..] ==> e in events;
      AbsentStaysAbsent(keyOf, Step(keyOf, w, events[0]), events[1..], key);
    }
  }

  /**
   After an invalidation that reached Redis while nobody was computing under the key, and whatever
   else happens in between, the next call with that key runs its function; an invalidation leaves
   every other key alone, and one that fails changes nothing.
   */
  lemma InvalidationForcesRecomputation(
      keyOf: Call -> Option<string>, w: World, key: string, events: seq<Event>, next: Event)
    requires next.LookUp? && keyOf(next.call) == Some(key) && NobodyComputes(w, key)
    requires forall e :: e in events && e.LookUp? ==> keyOf(e.call) != Some(key)
    ensures var before := Run(keyOf, Step(keyOf, w, Invalidate(key, true)), events);
            var after := Step(keyOf, before, next);
            next.id !in before.pending ==>
              after == before.(pending := before.pending[next.id := Pending(next.call, key, next.ttl)])
    ensures Step(keyOf, w, Invalidate(key, true)) == w.(store := w.store - {key})
    ensures Step(keyOf, w, Invalidate(key, false)) == w
  {
    AbsentStaysAbsent(keyOf, Step(keyOf, w, Invalidate(key, true)), events, key);
  }

  /**
   The proviso is needed: a call that was already running stores what it computed before the
   invalidation, and the next call is served that.
   */
  lemma RunningCallDefeatsInvalidation(keyOf: Call -> Option<string>, w: World, id: nat, value: Value, next: Event)
    requires id in w.pending && w.pending[id].ttl > 0 && keyOf(w.pending[id].call) == Some(w.pending[id].key)
    requires next.LookUp? && next.id !in w.pending && next.call == w.pending[id].call && next.readable
    ensures var cleared := Step(keyOf, w, Invalidate(w.pending[id].key, true));
            var stored := Step(keyOf, cleared, Finish(id, Returned(value), true));
            Step(keyOf, stored, next).served
            == w.served + [Served(next.call, Returned(value), false, w.now),
                           Served(next.call, Returned(Json(value)), true, w.now)]
  {
  }

  /** The wrapper's own `invalidate` deletes the default key of its arguments, if that can be built. */
  function InvalidateCall(digest: string -> string, w: World, c: Call, reached: bool): World {
    match DefaultKey(digest)(c)
    case None => w
    case Some(key) => if reached then w.(store := w.store - {key}) else w
  }

  /** It is the invalidation of that key. */
  lemma InvalidateCallIsAStep(keyOf: Call -> Option<string>, digest: string -> string, w: World, c: Call, reached: bool)
    ensures InvalidateCall(digest, w, c, reached)
            == if NamesPrefix(c) then w else Step(keyOf, w, Invalidate(Key(digest, c), reached))
  {
  }

  /**
   Calling a decorated function's `invalidate` with the arguments of a cached call makes that call
   miss exactly when the function's key builder gives it the default key; in particular never for
   a call that passes a keyword named `prefix`, where `invalidate` raises.
   */
  lemma InvalidateHitsItsCallExactlyWhen(keyOf: Call -> Option<string>, digest: string -> string, w: World, c: Call)
    requires keyOf(c).Some? && Visible(w, keyOf(c).value)
    ensures !Visible(InvalidateCall(digest, w, c, true), keyOf(c).value) <==> keyOf(c) == DefaultKey(digest)(c)
    ensures NamesPrefix(c) ==> InvalidateCall(digest, w, c, true) == w
  {
  }

  /** An invalidation by pattern clears exactly the keys that begin so, and one that fails clears none. */
  lemma PatternClearsExactly(keyOf: Call -> Option<string>, w: World, head: string, key: string)
    ensures var w' := Step(keyOf, w, InvalidatePattern(head, true));
            && (key in w'.store <==> key in w.store && !(head <= key))
            && (key in w'.store ==> w'.store[key] == w.store[key])
            && w' == w.(store := w'.store)
    ensures Step(keyOf, w, InvalidatePattern(head, false)) == w
  {
  }

  /** So a result under a plain key is gone with its function's prefix: the next call runs the function. */
  lemma PlainResultGoesWithItsPrefix(digest: string -> string, w: World, c: Call, next: Event)
    requires Short(c) && c.prefix != "" && !NamesPrefix(c)
    requires next.LookUp? && next.call == c && next.id !in w.pending
    ensures var cleared := Step(DefaultKey(digest), w, InvalidatePattern(PrefixPattern(c.prefix), true));
            Step(DefaultKey(digest), cleared, next)
              == cleared.(pending := w.pending[next.id := Pending(c, Key(digest, c), next.ttl)])
  {
    PrefixInvalidationReachesExactly(digest, c);
  }

  /**
   A result under a hashed key outlives the invalidation of its function's prefix: the next call
   is still answered from the cache.
   */
  lemma HashedResultOutlivesPrefixInvalidation(digest: string -> string, w: World, c: Call, next: Event)
    requires !Short(c) && |c.prefix| >= 2 && !("v1" <= c.prefix) && !NamesPrefix(c)
    requires Visible(w, Key(digest, c)) && next.LookUp? && next.call == c && next.readable && next.id !in w.pending
    ensures var cleared := Step(DefaultKey(digest), w, InvalidatePattern(PrefixPattern(c.prefix), true));
            Step(DefaultKey(digest), cleared, next).served
            == w.served + [Served(c, Returned(w.store[Key(digest, c)].value), true, w.now)]
  {
    PrefixInvalidationReachesExactly(digest, c);
  }

  /** The same argument given by position and by keyword is cached twice and invalidated once. */
  lemma SpellingsAreInvalidatedSeparately(digest: string -> string, w: World, c: Call, d: Call)
    requires c.prefix == d.prefix && c.name == d.name && Plain(c) && Plain(d)
    requires DistinctNames(c.kwargs) && DistinctNames(d.kwargs) && Short(c) && Short(d)
    requires ArgTexts(c.args) != ArgTexts(d.args) && Visible(w, Key(digest, d))
    ensures Visible(InvalidateCall(digest, w, c, true), Key(digest, d))
  {
    KeysTellPlainCallsApart(digest, c, d);
  }

  // ---------------------------------------------------------------------------
  // The code itself
  // ---------------------------------------------------------------------------

  class Cache {
    const digest: string -> string
    var now: nat
    var store: map<string, Entry>
    var pending: map<nat, Pending>
    var stored: seq<Stored>
    var served: seq<Served>

    function View(): World
      reads this
    {
      World(now, store, pending, stored, served)
    }

    constructor (digest: string -> string)
      ensures View() == INITIAL && this.digest == digest
    {
      this.digest := digest;
      now, store, pending, stored, served := 0, map[], map[], [], [];
    }

    /** From the start of the wrapper to the await of the function; a call without a key fails at once. */
    method Begin(id: nat, call: Call, ttl: int, readable: bool) returns (reply: Option<Outcome>)
      requires id !in pending
      modifies `pending, `served
      ensures View() == Step(DefaultKey(digest), old(View()), LookUp(id, call, ttl, readable))
      ensures reply.Some? <==> served != old(served)
      ensures reply.Some? ==> served[|served| - 1].outcome == reply.value
    {
      var key := MakeCacheKey(digest, call);
      if key.None? {
        served := served + [Served(call, KEY_ERROR, false, now)];
        return Some(KEY_ERROR);
      }
      reply := BeginUnder(id, key.value, call, ttl, readable);
    }

    /** The same with the key at hand. */
    method BeginUnder(id: nat, key: string, call: Call, ttl: int, readable: bool) returns (reply: Option<Outcome>)
      modifies `pending, `served
      ensures View() == Begun(old(View()), id, key, call, ttl, readable)
      ensures reply.Some? <==> served != old(served)
      ensures reply.Some? ==> served[|served| - 1].outcome == reply.value
    {
      if readable && key in store && now < store[key].expiresAt {
        var cached := Returned(store[key].value);
        served := served + [Served(call, cached, true, now)];
        return Some(cached);
      }
      pending := pending[id := Pending(call, key, ttl)];
      return None;
    }

    /** From the end of the function to the return: store what can be stored, return what was computed. */
    method Complete(id: nat, outcome: Outcome, writable: bool)
      requires id in pending
      modifies `store, `pending, `stored, `served
      ensures View() == Step(DefaultKey(digest), old(View()), Finish(id, outcome, writable))
    {
      var p := pending[id];
      pending := pending - {id};
      if outcome.Returned? && writable && p.ttl > 0 {
        store := store[p.key := Entry(Json(outcome.value), now + p.ttl)];
        stored := stored + [Stored(p.key, outcome.value, now, p.ttl)];
      }
      served := served + [Served(p.call, outcome, false, now)];
    }

    /** Deletes one call's default key and says whether it was there; None is the TypeError. */
    method InvalidateOne(call: Call, reached: bool) returns (deleted: Option<bool>)
      modifies `store
      ensures View() == InvalidateCall(digest, old(View()), call, reached)
      ensures deleted == if NamesPrefix(call) then None else Some(reached && Key(digest, call) in old(store))
    {
      var key := MakeCacheKey(digest, call);
      if key.None? {
        return None;
      }
      deleted := Some(reached && key.value in store);
      if reached {
        store := store - {key.value};
      }
    }

    /** The keys that start with the pattern's literal part. */
    method Matching(head: string) returns (keys: set<string>)
      ensures keys == set key | key in store.Keys && head <= key
    {
      keys := {};
      var unseen := store.Keys;
      while unseen != {}
        invariant unseen <= store.Keys
        invariant keys == set key | key in store.Keys - unseen && head <= key
        decreases unseen
      {
        var key :| key in unseen;
        unseen := unseen - {key};
        if head <= key {
          keys := keys + {key};
        }
      }
    }

    /** Collects the matching keys, then deletes them all. */
    method InvalidateMatching(head: string, reached: bool) returns (count: nat)
      modifies `store
      ensures View() == Step(DefaultKey(digest), old(View()), InvalidatePattern(head, reached))
      ensures count == if reached then |old(store)| - |store| else 0
    {
      count := 0;
      if reached {
        var keys := Matching(head);
        count := |keys|;
        assert (store - keys).Keys == store.Keys - keys;
        store := store - keys;
      }
    }
  }
}
