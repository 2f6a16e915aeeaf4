/**
 The Celery-beat heartbeat (backend/celery_beat_heartbeat.py and celery_beat_scheduler.py): every
 scheduler tick stamps a Redis key with a lifetime, and a probe asks whether the key is there.

 Time is real-valued.  Several schedulers share one Redis; a stamp may fail, and a probe may go
 unanswered.  When each scheduler last ticked and last stamped is kept as history for the theorems.
 */
module Heartbeat {
  import opened Options

  const TTL_SECONDS: int := 900
  const INTERVAL_MULTIPLIER: real := 3.0

  /** int() of a positive float is its floor. */
  function Ttl(maxInterval: Option<real>): int {
    if maxInterval.None? || maxInterval.value <= 0.0 then TTL_SECONDS
    else
      var scaled := (maxInterval.value * INTERVAL_MULTIPLIER).Floor;
      if scaled > TTL_SECONDS then scaled else TTL_SECONDS
  }

  /**
   Without a usable interval, and with one of up to 300 seconds, the lifetime is 900 seconds; with a
   longer one it is three intervals cut to whole seconds.
   */
  lemma LifetimeOf(maxInterval: Option<real>)
    ensures maxInterval.None? || maxInterval.value <= 300.0 ==> Ttl(maxInterval) == 900
    ensures maxInterval.Some? && maxInterval.value > 300.0 ==> Ttl(maxInterval) == (3.0 * maxInterval.value).Floor
  {
    if maxInterval.Some? && maxInterval.value > 0.0 {
      var gap := maxInterval.value;
      assert gap * INTERVAL_MULTIPLIER == 3.0 * gap;
      assert (3.0 * gap).Floor as real <= 3.0 * gap < (3.0 * gap).Floor as real + 1.0;
    }
  }

  // ---------------------------------------------------------------------------
  // Keys
  // ---------------------------------------------------------------------------

  datatype Instance = Instance(environment: string, host: string)

  const KEY_PREFIX := "scf:celery-beat:heartbeat"

  function Key(i: Instance): string {
    KEY_PREFIX + ":" + i.environment + ":" + i.host
  }

  function AfterLastColon(text: string): string {
    if text == "" || text[|text| - 1] == ':' then "" else AfterLastColon(text[..|text| - 1]) + [text[|text| - 1]]
  }

  lemma {:induction false} HostIsLastPart(before: string, host: string)
    requires ':' !in host
    ensures AfterLastColon(before + ":" + host) == host
    decreases |host|
  {
    var text := before + ":" + host;
    if host != "" {
      var shorter := host[..|host| - 1];
      assert text[|text| - 1] == host[|host| - 1] && host[|host| - 1] in host;
      assert text[..|text| - 1] == before + ":" + shorter;
      assert forall c :: c in shorter ==> c in host;
      HostIsLastPart(before, shorter);
      assert host == shorter + [host[|host| - 1]];
    }
  }

  /** Two instances share a key exactly when their environment-colon-host texts agree. */
  lemma KeysAgreeExactly(i: Instance, j: Instance)
    ensures Key(i) == Key(j) <==> i.environment + ":" + i.host == j.environment + ":" + j.host
  {
    var n := |KEY_PREFIX| + 1;
    assert Key(i)[n..] == i.environment + ":" + i.host;
    assert Key(j)[n..] == j.environment + ":" + j.host;
    assert Key(i) == (KEY_PREFIX + ":") + (i.environment + ":" + i.host);
    assert Key(j) == (KEY_PREFIX + ":") + (j.environment + ":" + j.host);
  }

  /** The second environment is the first plus a colon and what stands before a colon of the first host. */
  ghost predicate Shifted(i: Instance, j: Instance) {
    exists part :: MovesIntoEnvironment(i, j, part)
  }

  predicate MovesIntoEnvironment(i: Instance, j: Instance, part: string) {
    i.host == part + ":" + j.host && j.environment == i.environment + ":" + part
  }

  /** Two different instances share a key exactly when a part of one's host has moved into the other's environment. */
  lemma KeysCollideExactly(i: Instance, j: Instance)
    requires i != j
    ensures Key(i) == Key(j) <==> Shifted(i, j) || Shifted(j, i)
  {
    KeysAgreeExactly(i, j);
    if Key(i) == Key(j) {
      EqualLengthsAreEqual(i, j);
      if |i.environment| < |j.environment| { LongerEnvironmentShifts(i, j); } else { LongerEnvironmentShifts(j, i); }
    }
    if part :| MovesIntoEnvironment(i, j, part) { ShiftKeepsText(i, j, part); }
    if part :| MovesIntoEnvironment(j, i, part) { ShiftKeepsText(j, i, part); }
  }

  lemma ShiftKeepsText(i: Instance, j: Instance, part: string)
    requires MovesIntoEnvironment(i, j, part)
    ensures i.environment + ":" + i.host == j.environment + ":" + j.host
  {
    assert i.environment + ":" + (part + ":" + j.host) == (i.environment + ":" + part) + ":" + j.host;
  }

  lemma EqualLengthsAreEqual(i: Instance, j: Instance)
    requires i.environment + ":" + i.host == j.environment + ":" + j.host
    ensures |i.environment| == |j.environment| ==> i == j
  {
    var m, n := |i.environment|, |j.environment|;
    assert (i.environment + ":" + i.host)[..m] == i.environment && (j.environment + ":" + j.host)[..n] == j.environment;
    assert (i.environment + ":" + i.host)[m + 1..] == i.host && (j.environment + ":" + j.host)[n + 1..] == j.host;
  }

  lemma LongerEnvironmentShifts(i: Instance, j: Instance)
    requires i.environment + ":" + i.host == j.environment + ":" + j.host && |i.environment| < |j.environment|
    ensures Shifted(i, j)
  {
    var text := i.environment + ":" + i.host;
    var m, n := |i.environment|, |j.environment|;
    var part := text[m + 1..n];
    assert text[..n] == j.environment && text[n + 1..] == j.host && text[n] == ':';
    assert text[..m] == i.environment && text[m] == ':' && text[m + 1..] == i.host;
    assert j.environment == text[..m] + [text[m]] + part;
    assert i.host == part + [text[n]] + text[n + 1..];
    assert MovesIntoEnvironment(i, j, part);
  }

  /** With colon-free host names the key tells instances apart, whatever the environments hold. */
  lemma KeysDiffer(i: Instance, j: Instance)
    requires ':' !in i.host && ':' !in j.host && i != j
    ensures Key(i) != Key(j)
  {
    KeysAgreeExactly(i, j);
    HostIsLastPart(i.environment, i.host);
    HostIsLastPart(j.environment, j.host);
    if i.host == j.host {
      EqualTailsCancel(i.environment, j.environment, ":" + i.host);
      assert i.environment + ":" + i.host == i.environment + (":" + i.host);
      assert j.environment + ":" + j.host == j.environment + (":" + i.host);
    }
  }

  lemma EqualTailsCancel(a: string, b: string, tail: string)
    ensures a + tail == b + tail <==> a == b
  {
    if a + tail == b + tail {
      assert (a + tail)[..|a|] == a && (b + tail)[..|b|] == b;
    }
  }

  // ---------------------------------------------------------------------------
  // The timed system
  // ---------------------------------------------------------------------------

  /** History of one scheduler since its last stamp that landed. */
  datatype Beat = Beat(landedAt: real, ttl: int, triedAt: real, misses: nat)

  datatype World = World(now: real, expiry: map<string, real>, beats: map<Instance, Beat>)

  datatype Event =
    | Stamp(instance: Instance, maxInterval: Option<real>, landed: bool)
    | Pass(seconds: nat, fraction: real)

  datatype Status = Fresh | Stale | Unknown

  const INITIAL := World(0.0, map[], map[])

  function Step(w: World, e: Event): World {
    match e
    case Stamp(i, maxInterval, landed) =>
      if landed then
        var ttl := Ttl(maxInterval);
        w.(expiry := w.expiry[Key(i) := w.now + ttl as real], beats := w.beats[i := Beat(w.now, ttl, w.now, 0)])
      else if i in w.beats then
        var beat := w.beats[i];
        w.(beats := w.beats[i := beat.(triedAt := w.now, misses := beat.misses + 1)])
      else w
    case Pass(seconds, fraction) =>
      if 0.0 <= fraction then w.(now := w.now + seconds as real + fraction) else w
  }

  function Run(w: World, events: seq<Event>): World
    decreases |events|
  {
    if events == [] then w else Run(Step(w, events[0]), events[1..])
  }

  predicate Present(w: World, i: Instance) {
    Key(i) in w.expiry && w.now < w.expiry[Key(i)]
  }

  /** The probe's verdict. */
  function Probe(w: World, i: Instance, answered: bool): Status {
    if !answered then Unknown else if Present(w, i) then Fresh else Stale
  }

  /** Only a missing key that Redis vouches for is a failure. */
  function ExitCode(status: Status): int {
    match status
    case Fresh => 0
    case Stale => 1
    case Unknown => 0
  }

  // ---------------------------------------------------------------------------
  // Invariant
  // ---------------------------------------------------------------------------

  predicate ColonFree(events: seq<Event>) {
    forall e :: e in events && e.Stamp? ==> ':' !in e.instance.host
  }

  ghost predicate Inv(w: World) {
    && (forall i :: i in w.beats ==>
          && ':' !in i.host
          && Key(i) in w.expiry && w.expiry[Key(i)] == w.beats[i].landedAt + w.beats[i].ttl as real
          && w.beats[i].landedAt <= w.beats[i].triedAt <= w.now)
    && (forall i: Instance :: ':' !in i.host && i !in w.beats ==> Key(i) !in w.expiry)
  }

  lemma StepKeepsInvariant(w: World, e: Event)
    requires Inv(w) && ColonFree([e])
    ensures Inv(Step(w, e))
  {
    assert e in [e];
    if e.Stamp? && e.landed {
      var w' := Step(w, e);
      forall i | i in w'.beats
        ensures Key(i) in w'.expiry && w'.expiry[Key(i)] == w'.beats[i].landedAt + w'.beats[i].ttl as real
      {
        if i != e.instance { KeysDiffer(i, e.instance); }
      }
      forall i: Instance | ':' !in i.host && i !in w'.beats
        ensures Key(i) !in w'.expiry
      {
        KeysDiffer(i, e.instance);
      }
    }
  }

  lemma {:induction false} RunKeepsInvariant(w: World, events: seq<Event>)
    requires Inv(w) && ColonFree(events)
    ensures Inv(Run(w, events))
    decreases |events|
  {
    if events != [] {
      assert events[0] in events && forall e :: e in events[1..] ==> e in events;
      StepKeepsInvariant(w, events[0]);
      RunKeepsInvariant(Step(w, events[0]), events[1..]);
    }
  }

  /**
   A stamp that lands makes the probe green for exactly its lifetime, and one that does not leaves
   every key as it is.
   */
  lemma LandedStampLastsItsLifetime(w: World, i: Instance, maxInterval: Option<real>, seconds: nat, fraction: real)
    requires 0.0 <= fraction
    ensures var later := Step(Step(w, Stamp(i, maxInterval, true)), Pass(seconds, fraction));
            && Probe(later, i, true)
                 == (if seconds as real + fraction < Ttl(maxInterval) as real then Fresh else Stale)
            && Probe(later, i, false) == Unknown
            && forall key :: key != "scf:celery-beat:heartbeat:" + i.environment + ":" + i.host ==>
                 (key in later.expiry <==> key in w.expiry)
                 && (key in w.expiry ==> later.expiry[key] == w.expiry[key])
    ensures Step(w, Stamp(i, maxInterval, false)).expiry == w.expiry
  {
    assert Key(i) == "scf:celery-beat:heartbeat:" + i.environment + ":" + i.host;
  }

  // ---------------------------------------------------------------------------
  // A dead scheduler is found out
  // ---------------------------------------------------------------------------

  lemma {:induction false} SilentInstanceKeepsItsBeat(w: World, events: seq<Event>, i: Instance)
    requires forall e :: e in events && e.Stamp? ==> e.instance != i
    ensures w.now <= Run(w, events).now
    ensures i in w.beats <==> i in Run(w, events).beats
    ensures i in w.beats ==> Run(w, events).beats[i] == w.beats[i]
    decreases |events|
  {
    if events != [] {
      assert events[0] in events && forall e :: e in events[1..] ==> e in events;
      SilentInstanceKeepsItsBeat(Step(w, events[0]), events[1..], i);
    }
  }

  /**
   A scheduler that ticks no more is reported stale at exactly the answered probes from its last
   stamp's lifetime on, whatever the other schedulers on the same Redis do; one that never
   stamped is stale at every answered probe.
   */
  lemma DeadSchedulerIsStale(before: seq<Event>, after: seq<Event>, i: Instance)
    requires ColonFree(before) && ColonFree(after) && ':' !in i.host
    requires forall e :: e in after && e.Stamp? ==> e.instance != i
    ensures var died := Run(INITIAL, before);
            var w := Run(died, after);
            && (i !in died.beats ==> Probe(w, i, true) == Stale)
            && (i in died.beats ==>
                  (Probe(w, i, true) == Stale <==> died.beats[i].landedAt + died.beats[i].ttl as real <= w.now))
  {
    RunKeepsInvariant(INITIAL, before);
    var died := Run(INITIAL, before);
    RunKeepsInvariant(died, after);
    SilentInstanceKeepsItsBeat(died, after, i);
    assert Inv(Run(died, after));
  }

  /** With a colon in a host name, another scheduler can keep a dead one's probe green for ever. */
  lemma SharedKeyHidesADeath(w: World, maxInterval: Option<real>)
    ensures var dead, alive := Instance("prod", "eu:beat"), Instance("prod:eu", "beat");
            && dead != alive && Key(dead) == Key(alive)
            && Probe(Step(w, Stamp(alive, maxInterval, true)), dead, true) == Fresh
  {
    var dead, alive := Instance("prod", "eu:beat"), Instance("prod:eu", "beat");
    KeysAgreeExactly(dead, alive);
    assert dead.environment + ":" + dead.host == "prod:eu:beat" == alive.environment + ":" + alive.host;
  }

  // ---------------------------------------------------------------------------
  // A living scheduler is not condemned
  // ---------------------------------------------------------------------------

  /** So far the scheduler's next tick is not overdue. */
  predicate InTime(w: World, i: Instance, gap: real) {
    i in w.beats ==> w.now <= w.beats[i].triedAt + gap
  }

  /** The scheduler ticks at most `gap` apart throughout, and stamps with that interval. */
  predicate Regular(w: World, events: seq<Event>, i: Instance, gap: real)
    decreases |events|
  {
    && InTime(w, i, gap)
    && (events != [] ==>
          && (events[0].Stamp? && events[0].instance == i ==> events[0].maxInterval == Some(gap))
          && Regular(Step(w, events[0]), events[1..], i, gap))
  }

  /** Every miss costs at most one gap. */
  predicate Accounted(w: World, i: Instance, gap: real) {
    i in w.beats ==>
      w.beats[i].ttl == Ttl(Some(gap)) && w.beats[i].triedAt <= w.beats[i].landedAt + w.beats[i].misses as real * gap
  }

  lemma {:induction false} RegularRunsAreAccounted(w: World, events: seq<Event>, i: Instance, gap: real)
    requires Regular(w, events, i, gap) && Accounted(w, i, gap)
    ensures Accounted(Run(w, events), i, gap) && InTime(Run(w, events), i, gap)
    decreases |events|
  {
    if events != [] {
      var w' := Step(w, events[0]);
      if i in w.beats && events[0].Stamp? && events[0].instance == i && !events[0].landed {
        var m := w.beats[i].misses;
        assert (m + 1) as real * gap == m as real * gap + gap;
      }
      RegularRunsAreAccounted(w', events[1..], i, gap);
    }
  }

  /** The lifetime covers more than three gaps less one second, and always more than two. */
  lemma TtlCovers(gap: real)
    requires gap > 0.0
    ensures 3.0 * gap - 1.0 < Ttl(Some(gap)) as real && 2.0 * gap < Ttl(Some(gap)) as real
    ensures Ttl(Some(gap)) as real < 3.0 * gap <==> gap > 300.0 && (3.0 * gap).Floor as real != 3.0 * gap
  {
    var scaled := (gap * INTERVAL_MULTIPLIER).Floor;
    assert gap * INTERVAL_MULTIPLIER == 3.0 * gap;
    assert scaled as real <= 3.0 * gap < scaled as real + 1.0;
  }

  lemma FewMisses(misses: nat, gap: real)
    requires misses <= 2
    ensures misses as real * gap == if misses == 0 then 0.0 else if misses == 1 then gap else gap + gap
  {
  }

  /** What the bounds on one scheduler's history say about its key. */
  lemma BeatBounds(beat: Beat, now: real, gap: real)
    requires gap > 0.0 && beat.ttl == Ttl(Some(gap)) && beat.misses <= 2
    requires beat.triedAt <= beat.landedAt + beat.misses as real * gap && now <= beat.triedAt + gap
    ensures beat.misses <= 1 ==> now < beat.landedAt + beat.ttl as real
    ensures beat.landedAt + beat.ttl as real <= now ==>
              && beat.triedAt + gap - now < 1.0
              && (now < beat.triedAt + gap ==> gap > 300.0 && (3.0 * gap).Floor as real != 3.0 * gap)
  {
    TtlCovers(gap);
    FewMisses(beat.misses, gap);
    assert 3.0 * gap == gap + gap + gap && 2.0 * gap == gap + gap;
  }

  /**
   While a scheduler ticks at most `gap` apart, its key is present at every probe until two stamps
   in a row have failed; after exactly two it can be absent only in the last second before the
   next tick is due, and before that very instant only when three gaps exceed 900 seconds and are
   not a whole number of seconds.
   */
  lemma LivingSchedulerStaysFresh(events: seq<Event>, i: Instance, gap: real)
    requires gap > 0.0 && ColonFree(events) && Regular(INITIAL, events, i, gap)
    ensures var w := Run(INITIAL, events);
            i in w.beats ==>
              && (w.beats[i].misses <= 1 ==> Probe(w, i, true) == Fresh)
              && (w.beats[i].misses == 2 && Probe(w, i, true) == Stale ==>
                    && w.beats[i].triedAt + gap - w.now < 1.0
                    && (w.now < w.beats[i].triedAt + gap ==> gap > 300.0 && (3.0 * gap).Floor as real != 3.0 * gap))
  {
    RunKeepsInvariant(INITIAL, events);
    RegularRunsAreAccounted(INITIAL, events, i, gap);
    var w := Run(INITIAL, events);
    if i in w.beats && w.beats[i].misses <= 2 {
      BeatBounds(w.beats[i], w.now, gap);
    }
  }

  /** The bound on misses cannot be improved: three in a row make a living scheduler stale. */
  lemma ThreeMissesCanCondemn(i: Instance)
    requires ':' !in i.host
    ensures var gap := 300.0;
            var miss := [Pass(300, 0.0), Stamp(i, Some(gap), false)];
            var events := [Stamp(i, Some(gap), true)] + miss + miss + miss;
            && Regular(INITIAL, events, i, gap) && Probe(Run(INITIAL, events), i, true) == Stale
  {
    var gap := 300.0;
    var land, miss, wait := Stamp(i, Some(gap), true), Stamp(i, Some(gap), false), Pass(300, 0.0);
    var events := [land, wait, miss, wait, miss, wait, miss];
    assert [land] + [wait, miss] + [wait, miss] + [wait, miss] == events;
    assert (gap * INTERVAL_MULTIPLIER).Floor == 900;
    assert Ttl(Some(gap)) == 900;
    var w1 := Step(INITIAL, land);
    var w2 := Step(w1, wait);
    var w3 := Step(w2, miss);
    var w4 := Step(w3, wait);
    var w5 := Step(w4, miss);
    var w6 := Step(w5, wait);
    var w7 := Step(w6, miss);
    assert events[1..] == [wait, miss, wait, miss, wait, miss];
    assert events[1..][1..] == [miss, wait, miss, wait, miss];
    assert events[1..][1..][1..] == [wait, miss, wait, miss];
    assert events[1..][1..][1..][1..] == [miss, wait, miss];
    assert [miss, wait, miss][1..] == [wait, miss] && [wait, miss][1..] == [miss] && [miss][1..] == [];
    assert Run(w7, []) == w7 && Regular(w7, [], i, gap);
    assert Run(w6, [miss]) == w7 && Regular(w6, [miss], i, gap);
    assert Run(w5, [wait, miss]) == w7 && Regular(w5, [wait, miss], i, gap);
    assert Run(w4, [miss, wait, miss]) == w7 && Regular(w4, [miss, wait, miss], i, gap);
    assert Run(w3, events[1..][1..][1..]) == w7 && Regular(w3, events[1..][1..][1..], i, gap);
    assert Run(w2, events[1..][1..]) == w7 && Regular(w2, events[1..][1..], i, gap);
    assert Run(w1, events[1..]) == w7 && Regular(w1, events[1..], i, gap);
  }

  // ---------------------------------------------------------------------------
  // The code itself
  // ---------------------------------------------------------------------------

  /** A built Redis client; no two builds give the same one. */
  datatype Client = Client(serial: nat, url: string)

  class Redis {
    var now: real
    var expiry: map<string, real>
    var beats: map<Instance, Beat>

    function View(): World
      reads this
    {
      World(now, expiry, beats)
    }
  }

  /** A process holding the module's client cache: the scheduler, or one run of the probe. */
  class Process {
    const instance: Instance
    const redis: Redis
    var client: Option<Client>
    var clientUrl: Option<string>
    var built: nat

    /** The cache is for one URL, and only clients built so far are cached. */
    predicate Valid()
      reads this
    {
      && clientUrl == (if client.None? then None else Some(client.value.url))
      && (client.Some? ==> client.value.serial < built)
    }

    constructor (instance: Instance, redis: Redis)
      ensures Valid() && this.instance == instance && this.redis == redis && client.None? && built == 0
    {
      this.instance, this.redis := instance, redis;
      client, clientUrl, built := None, None, 0;
    }

    /** The cached client if it is for this URL and not to be dropped; otherwise a new one, if it can be built. */
    method GetClient(url: string, reset: bool, buildable: bool) returns (result: Option<Client>)
      requires Valid()
      modifies this
      ensures Valid() && result == client
      ensures !reset && old(clientUrl) == Some(url) ==> client == old(client) && built == old(built)
      ensures reset || old(clientUrl) != Some(url) ==>
                && client == (if buildable then Some(Client(old(built), url)) else None)
                && built == old(built) + if buildable then 1 else 0
    {
      if reset || clientUrl != Some(url) {
        client, clientUrl := None, None;
      }
      if client.Some? {
        return client;
      }
      if buildable {
        client, clientUrl, built := Some(Client(built, url)), Some(url), built + 1;
      }
      result := client;
    }

    /**
     Stamps the key; a failure is swallowed, and the client it happened on is never used again.
     Without a client nothing is sent.
     */
    method WriteHeartbeat(url: string, buildable: bool, reachable: bool, rebuildable: bool, maxInterval: Option<real>)
      returns (landed: bool)
      requires Valid()
      modifies this, redis
      ensures Valid()
      ensures redis.View() == Step(old(redis.View()), Stamp(instance, maxInterval, landed))
      ensures landed <==> reachable && (buildable || old(clientUrl) == Some(url))
      ensures landed ==> client.Some? && client.value.url == url
      ensures !landed ==> client != old(client) || client.None?
    {
      var c := GetClient(url, false, buildable);
      landed := false;
      if c.Some? {
        if reachable {
          var ttl := Ttl(maxInterval);
          redis.expiry := redis.expiry[Key(instance) := redis.now + ttl as real];
          redis.beats := redis.beats[instance := Beat(redis.now, ttl, redis.now, 0)];
          landed := true;
        } else {
          var _ := GetClient(url, true, rebuildable);
        }
      }
      if !landed && instance in redis.beats {
        var beat := redis.beats[instance];
        redis.beats := redis.beats[instance := beat.(triedAt := redis.now, misses := beat.misses + 1)];
      }
    }

    /** The probe: fresh or stale when Redis answers, unknown when it cannot be asked. */
    method HeartbeatStatus(url: string, buildable: bool, reachable: bool, rebuildable: bool) returns (status: Status)
      requires Valid()
      modifies this
      ensures Valid()
      ensures status == Probe(redis.View(), instance, reachable && (buildable || old(clientUrl) == Some(url)))
      ensures status == Unknown ==> client != old(client) || client.None?
    {
      var c := GetClient(url, false, buildable);
      if c.None? {
        return Unknown;
      }
      if !reachable {
        var _ := GetClient(url, true, rebuildable);
        return Unknown;
      }
      status := if Key(instance) in redis.expiry && redis.now < redis.expiry[Key(instance)] then Fresh else Stale;
    }

    /** The container health check fails exactly when Redis answers that the key is gone. */
    method RunProbe(url: string, buildable: bool, reachable: bool, rebuildable: bool) returns (code: int)
      requires Valid()
      modifies this
      ensures Valid()
      ensures code == ExitCode(Probe(redis.View(), instance, reachable && (buildable || old(clientUrl) == Some(url))))
      ensures code == if reachable && (buildable || old(clientUrl) == Some(url)) && !Present(redis.View(), instance)
                      then 1 else 0
    {
      var status := HeartbeatStatus(url, buildable, reachable, rebuildable);
      if status == Fresh {
        return 0;
      }
      if status == Stale {
        return 1;
      }
      return 0;
    }
  }
}
