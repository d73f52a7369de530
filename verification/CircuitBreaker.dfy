/**
 The circuit breaker in front of the solver (internal/circuitbreaker/circuitbreaker.go). Times and durations
 are integers on one clock; each operation is given the time at which it reads the clock.
 */
module CircuitBreaker {
  datatype Config = Config(timeoutThreshold: int, windowDuration: int, failureThreshold: int, openDuration: int)

  const SECOND: int := 1_000_000_000

  const DEFAULTS := Config(30 * SECOND, 60 * SECOND, 3, 90 * SECOND)

  function WithDefaults(c: Config): (r: Config)
    ensures r.timeoutThreshold > 0 && r.windowDuration > 0 && r.failureThreshold > 0 && r.openDuration > 0
    ensures r.timeoutThreshold == c.timeoutThreshold || (c.timeoutThreshold <= 0 && r.timeoutThreshold == 30 * SECOND)
    ensures r.windowDuration == c.windowDuration || (c.windowDuration <= 0 && r.windowDuration == 60 * SECOND)
    ensures r.failureThreshold == c.failureThreshold || (c.failureThreshold <= 0 && r.failureThreshold == 3)
    ensures r.openDuration == c.openDuration || (c.openDuration <= 0 && r.openDuration == 90 * SECOND)
  {
    Config(if c.timeoutThreshold <= 0 then DEFAULTS.timeoutThreshold else c.timeoutThreshold,
           if c.windowDuration <= 0 then DEFAULTS.windowDuration else c.windowDuration,
           if c.failureThreshold <= 0 then DEFAULTS.failureThreshold else c.failureThreshold,
           if c.openDuration <= 0 then DEFAULTS.openDuration else c.openDuration)
  }

  datatype Mode = Closed | Open | HalfOpen

  datatype State = State(mode: Mode, stamps: seq<int>, openedAt: int, probeInFlight: bool)

  const INITIAL := State(Closed, [], 0, false)

  datatype Event = Asked(now: int) | TimedOut(elapsed: int, now: int) | Succeeded(now: int)

  // ----- one operation, on values -----

  /** The stamps from the first one inside the window. */
  function Pruned(stamps: seq<int>, cutoff: int): seq<int> {
    if stamps != [] && stamps[0] < cutoff then Pruned(stamps[1..], cutoff) else stamps
  }

  function Tripped(now: int): State {
    State(Open, [], now, false)
  }

  predicate Admits(c: Config, s: State, now: int) {
    match s.mode
    case Closed => true
    case Open => now - s.openedAt >= c.openDuration
    case HalfOpen => !s.probeInFlight
  }

  predicate Qualifies(c: Config, e: Event) {
    e.TimedOut? && e.elapsed >= c.timeoutThreshold
  }

  function Step(c: Config, s: State, e: Event): State {
    match e
    case Asked(now) =>
      if s.mode.Closed? || !Admits(c, s, now) then s else s.(mode := HalfOpen, probeInFlight := true)
    case TimedOut(elapsed, now) =>
      if !Qualifies(c, e) || s.mode.Open? then s
      else if s.mode.HalfOpen? then Tripped(now)
      else
        var stamps := Pruned(s.stamps, now - c.windowDuration) + [now];
        if |stamps| >= c.failureThreshold then Tripped(now) else s.(stamps := stamps)
    case Succeeded(_) =>
      if s.mode.Open? then s
      else if s.mode.Closed? then s.(stamps := [])
      else s.(mode := Closed, stamps := [], probeInFlight := false)
  }

  function Run(c: Config, s: State, events: seq<Event>): State
    decreases |events|
  {
    if events == [] then s else Step(c, Run(c, s, events[..|events| - 1]), events[|events| - 1])
  }

  predicate Chronological(events: seq<Event>) {
    forall i, j :: 0 <= i < j < |events| ==> events[i].now <= events[j].now
  }

  // ----- a recount of the whole history -----

  /** How many qualifying timeouts among the events lie at or after the cutoff. */
  function Count(c: Config, events: seq<Event>, cutoff: int): nat
    decreases |events|
  {
    if events == [] then 0
    else
      var e := events[|events| - 1];
      Count(c, events[..|events| - 1], cutoff) 
      + if e.TimedOut? && e.elapsed >= c.timeoutThreshold && e.now >= cutoff then 1 else 0
  }

  /** Where the breaker stands, and since which event timeouts count; no list of stamps is kept. */
  datatype Recount = Recount(mode: Mode, openedAt: int, since: nat)

  function Replay(c: Config, events: seq<Event>): (r: Recount)
    ensures r.since <= |events|
    decreases |events|
  {
    if events == [] then Recount(Closed, 0, 0)
    else
      var n := |events|;
      var r := Replay(c, events[..n - 1]);
      Recounted(c, r, events[r.since..], n)
  }

  /** The recount after one more event, the last of those since the reset. */
  function Recounted(c: Config, r: Recount, recent: seq<Event>, n: nat): (r': Recount)
    requires recent != []
    ensures r'.since == r.since || r'.since == n
  {
    var e := recent[|recent| - 1];
    if e.Asked? then
      if r.mode.Open? && e.now >= r.openedAt + c.openDuration then r.(mode := HalfOpen) else r
    else if e.Succeeded? then
      if r.mode.Open? then r else Recount(Closed, r.openedAt, n)
    else if !Qualifies(c, e) || r.mode.Open? then r
    else if r.mode.HalfOpen? || Count(c, recent, e.now - c.windowDuration) >= c.failureThreshold then
      Recount(Open, e.now, n)
    else r
  }

  /** The times of the qualifying timeouts. */
  function Times(c: Config, events: seq<Event>): seq<int>
    decreases |events|
  {
    if events == [] then []
    else
      var e := events[|events| - 1];
      Times(c, events[..|events| - 1]) + if Qualifies(c, e) then [e.now] else []
  }

  function AtLeast(times: seq<int>, cutoff: int): seq<int>
    decreases |times|
  {
    if times == [] then []
    else
      var t := times[|times| - 1];
      AtLeast(times[..|times| - 1], cutoff) + if t >= cutoff then [t] else []
  }

  predicate Ascending(times: seq<int>) {
    forall i, j :: 0 <= i < j < |times| ==> times[i] <= times[j]
  }

  lemma {:induction false} CountIsLength(c: Config, events: seq<Event>, cutoff: int)
    ensures Count(c, events, cutoff) == |AtLeast(Times(c, events), cutoff)|
    decreases |events|
  {
    if events != [] {
      var before := events[..|events| - 1];
      CountIsLength(c, before, cutoff);
      AtLeastAppend(Times(c, before), events[|events| - 1].now, cutoff);
      assert Times(c, before) + [] == Times(c, before);
    }
  }

  lemma AtLeastAppend(times: seq<int>, t: int, cutoff: int)
    ensures AtLeast(times + [t], cutoff) == AtLeast(times, cutoff) + if t >= cutoff then [t] else []
  {
    assert (times + [t])[..|times|] == times;
  }

  /** On ascending stamps, dropping from the front is the same as filtering. */
  lemma {:induction false} PrunedFilters(times: seq<int>, cutoff: int)
    requires Ascending(times)
    ensures Pruned(times, cutoff) == AtLeast(times, cutoff)
    decreases |times|
  {
    if times != [] {
      var n := |times| - 1;
      PrunedFilters(times[..n], cutoff);
      PrunedAppend(times[..n], times[n], cutoff);
      assert times == times[..n] + [times[n]];
    }
  }

  lemma {:induction false} PrunedAppend(times: seq<int>, t: int, cutoff: int)
    requires forall i :: 0 <= i < |times| ==> times[i] <= t
    ensures Pruned(times + [t], cutoff) == Pruned(times, cutoff) + if t >= cutoff then [t] else []
    decreases |times|
  {
    if times == [] {
      assert times + [t] == [t];
    } else {
      assert (times + [t])[1..] == times[1..] + [t];
      PrunedAppend(times[1..], t, cutoff);
    }
  }

  /** Filtering again with a later cutoff is filtering with it at once. */
  lemma {:induction false} AtLeastTwice(times: seq<int>, first: int, cutoff: int)
    requires first <= cutoff
    ensures AtLeast(AtLeast(times, first), cutoff) == AtLeast(times, cutoff)
    decreases |times|
  {
    if times != [] {
      var n := |times| - 1;
      AtLeastTwice(times[..n], first, cutoff);
      AtLeastAppend(AtLeast(times[..n], first), times[n], cutoff);
      assert AtLeast(times[..n], first) + [] == AtLeast(times[..n], first);
      assert AtLeast(times[..n], cutoff) + [] == AtLeast(times[..n], cutoff);
    }
  }

  lemma {:induction false} AtLeastAscending(times: seq<int>, cutoff: int)
    requires Ascending(times)
    ensures Ascending(AtLeast(times, cutoff)) && forall x :: x in AtLeast(times, cutoff) ==> x in times
    decreases |times|
  {
    if times != [] {
      var n := |times| - 1;
      var rest := AtLeast(times[..n], cutoff);
      AtLeastAscending(times[..n], cutoff);
      forall i | 0 <= i < |rest|
        ensures rest[i] <= times[n]
      {
        assert rest[i] in rest;
      }
    }
  }

  lemma {:induction false} TimesAscending(c: Config, events: seq<Event>)
    requires Chronological(events)
    ensures Ascending(Times(c, events))
    ensures forall x :: x in Times(c, events) ==> events != [] && x <= events[|events| - 1].now
    decreases |events|
  {
    if events != [] {
      var before := events[..|events| - 1];
      TimesAscending(c, before);
      var times := Times(c, before);
      forall i | 0 <= i < |times|
        ensures times[i] <= events[|events| - 1].now
      {
        assert times[i] in times;
      }
    }
  }

  /** What the stamps hold while closed: the qualifying timeouts within the window of the last one. */
  function Window(c: Config, times: seq<int>): seq<int> {
    if times == [] then [] else AtLeast(times, times[|times| - 1] - c.windowDuration)
  }

  lemma WindowSlides(c: Config, times: seq<int>, now: int)
    requires Ascending(times) && c.windowDuration > 0 && forall x :: x in times ==> x <= now
    ensures Pruned(Window(c, times), now - c.windowDuration) + [now] == AtLeast(times + [now], now - c.windowDuration)
    ensures Window(c, times + [now]) == AtLeast(times + [now], now - c.windowDuration)
  {
    var cutoff := now - c.windowDuration;
    NothingToPrune(cutoff);
    hide AtLeast, Pruned, Ascending;
    AtLeastAppend(times, now, cutoff);
    assert (times + [now])[|times|] == now;
    if times != [] {
      var last := times[|times| - 1];
      assert last in times;
      var window := AtLeast(times, last - c.windowDuration);
      AtLeastTwice(times, last - c.windowDuration, cutoff);
      AtLeastAscending(times, last - c.windowDuration);
      PrunedFilters(window, cutoff);
    }
  }

  lemma NothingToPrune(cutoff: int)
    ensures Pruned([], cutoff) == [] && AtLeast([], cutoff) == []
  {
  }

  /** The breaker as it must be, given the recount. */
  predicate Matches(c: Config, s: State, r: Recount, sinceReset: seq<Event>) {
    && s.mode == r.mode
    && (s.mode.Open? ==> s.openedAt == r.openedAt)
    && s.stamps == (if s.mode.Closed? then Window(c, Times(c, sinceReset)) else [])
    && s.probeInFlight == s.mode.HalfOpen?
  }

  /**
   The stamps the breaker keeps decide exactly as a recount of the full history would: it opens on a
   qualifying timeout exactly when enough of those since the last reset lie in the window that ends now.
   */
  lemma {:induction false} DecidesByRecount(c: Config, events: seq<Event>)
    requires Chronological(events) && c.windowDuration > 0
    ensures var r := Replay(c, events);
            Matches(c, Run(c, INITIAL, events), r, events[r.since..])
    decreases |events|
  {
    if events == [] {
      assert events[0..] == [];
    } else {
      var n := |events| - 1;
      StillChronological(events, n, 0);
      DecidesByRecount(c, events[..n]);
      StillChronological(events, n, Replay(c, events[..n]).since);
      LastMatches(c, events);
    }
  }

  lemma LastMatches(c: Config, events: seq<Event>)
    requires events != [] && c.windowDuration > 0
    requires var r := Replay(c, events[..|events| - 1]);
             && Chronological(events[r.since..])
             && Matches(c, Run(c, INITIAL, events[..|events| - 1]), r, events[r.since..|events| - 1])
    ensures var r := Replay(c, events);
            Matches(c, Run(c, INITIAL, events), r, events[r.since..])
  {
    hide Run, Replay, Matches, Step, Recounted, Chronological;
    var n := |events| - 1;
    var before, e := events[..n], events[n];
    var s, r := Run(c, INITIAL, before), Replay(c, before);
    RunLast(c, INITIAL, events);
    ReplayLast(c, events);
    assert events[r.since..] == events[r.since..n] + [e];
    EventMatches(c, s, r, events[r.since..n], e, n + 1);
    assert events[n + 1..] == [];
  }

  lemma RunLast(c: Config, s: State, events: seq<Event>)
    requires events != []
    ensures Run(c, s, events) == Step(c, Run(c, s, events[..|events| - 1]), events[|events| - 1])
  {
    hide Step;
  }

  lemma ReplayLast(c: Config, events: seq<Event>)
    requires events != []
    ensures var r := Replay(c, events[..|events| - 1]);
            Replay(c, events) == Recounted(c, r, events[r.since..], |events|)
  {
    hide Recounted;
  }

  lemma EventMatches(c: Config, s: State, r: Recount, since: seq<Event>, e: Event, n: nat)
    requires Matches(c, s, r, since) && Chronological(since + [e]) && c.windowDuration > 0 && r.since != n
    ensures var r' := Recounted(c, r, since + [e], n);
            && (r'.since == r.since ==> Matches(c, Step(c, s, e), r', since + [e]))
            && (r'.since != r.since ==> Matches(c, Step(c, s, e), r', []))
  {
    assert (since + [e])[|since|] == e;
    if e.TimedOut? {
      TimeoutMatches(c, s, r, since, e);
    } else {
      TimesAppend(c, since, e);
      assert Times(c, since) + [] == Times(c, since);
    }
  }

  lemma StillChronological(events: seq<Event>, n: nat, since: nat)
    requires Chronological(events) && since <= |events| && n <= |events|
    ensures Chronological(events[..n]) && Chronological(events[since..])
  {
  }

  lemma TimesAppend(c: Config, events: seq<Event>, e: Event)
    ensures Times(c, events + [e]) == Times(c, events) + if Qualifies(c, e) then [e.now] else []
  {
    assert (events + [e])[..|events|] == events;
  }

  lemma LastIsLatest(since: seq<Event>, e: Event)
    requires Chronological(since + [e])
    ensures Chronological(since) && (since != [] ==> since[|since| - 1].now <= e.now)
  {
    assert forall i :: 0 <= i < |since| ==> since[i] == (since + [e])[i];
    assert (since + [e])[|since|] == e;
  }

  lemma TimeoutMatches(c: Config, s: State, r: Recount, since: seq<Event>, e: Event)
    requires e.TimedOut? && Matches(c, s, r, since) && Chronological(since + [e]) && c.windowDuration > 0
    ensures var s' := Step(c, s, e);
            var opens := Qualifies(c, e) && (s.mode.HalfOpen? || (s.mode.Closed?
              && Count(c, since + [e], e.now - c.windowDuration) >= c.failureThreshold));
            if opens then s' == Tripped(e.now) else Matches(c, s', r, since + [e])
  {
    hide Times, AtLeast, Pruned, Count, Ascending, Chronological;
    TimesAppend(c, since, e);
    if Qualifies(c, e) {
      var times := Times(c, since);
      LastIsLatest(since, e);
      TimesAscending(c, since);
      WindowSlides(c, times, e.now);
      CountIsLength(c, since + [e], e.now - c.windowDuration);
    } else {
      assert Times(c, since) + [] == Times(c, since);
    }
  }

  /** The position just after the last recorded success, or 0. */
  function AfterSuccess(events: seq<Event>): (k: nat)
    ensures k <= |events| && (k > 0 ==> events[k - 1].Succeeded?)
    ensures forall j :: k <= j < |events| ==> !events[j].Succeeded?
    decreases |events|
  {
    if events == [] then 0
    else if events[|events| - 1].Succeeded? then |events|
    else AfterSuccess(events[..|events| - 1])
  }

  /** While closed, timeouts count since the last recorded success. */
  lemma {:induction false} CountsSinceSuccess(c: Config, events: seq<Event>)
    requires Replay(c, events).mode.Closed?
    ensures Replay(c, events).since == AfterSuccess(events)
    decreases |events|
  {
    hide Count;
    if events != [] {
      ReplayLast(c, events);
      var n := |events| - 1;
      var r := Replay(c, events[..n]);
      assert events[r.since..][n - r.since] == events[n];
      if !events[n].Succeeded? { CountsSinceSuccess(c, events[..n]); }
    }
  }

  /**
   A closed breaker opens on exactly the qualifying timeouts with enough others in the window that ends
   with them, counted since the last recorded success.
   */
  lemma OpensExactlyOn(c: Config, events: seq<Event>, n: nat)
    requires Chronological(events) && c.windowDuration > 0 && n < |events|
    requires Run(c, INITIAL, events[..n]).mode.Closed?
    ensures Run(c, INITIAL, events[..n + 1]).mode.Open? <==>
            && events[n].TimedOut? && events[n].elapsed >= c.timeoutThreshold
            && Count(c, events[AfterSuccess(events[..n])..n + 1],
                     events[n].now - c.windowDuration) >= c.failureThreshold
  {
    hide Run, Replay, Chronological, Window, Times, Count, Step, AfterSuccess;
    var before, upTo := events[..n], events[..n + 1];
    var r := Replay(c, before);
    StillChronological(events, n, 0);
    DecidesByRecount(c, before);
    CountsSinceSuccess(c, before);
    assert upTo[..n] == before && upTo[n] == events[n];
    RunLast(c, INITIAL, upTo);
    ChronologicalPart(events, r.since, n + 1);
    assert events[r.since..n + 1] == before[r.since..] + [events[n]];
    OpensOn(c, Run(c, INITIAL, before), r, before[r.since..], events[n]);
  }

  lemma OpensOn(c: Config, s: State, r: Recount, since: seq<Event>, e: Event)
    requires Matches(c, s, r, since) && s.mode.Closed? && Chronological(since + [e]) && c.windowDuration > 0
    ensures Step(c, s, e).mode.Open? <==>
            Qualifies(c, e) && Count(c, since + [e], e.now - c.windowDuration) >= c.failureThreshold
  {
    if e.TimedOut? { TimeoutMatches(c, s, r, since, e); }
  }

  lemma ChronologicalPart(events: seq<Event>, since: nat, n: nat)
    requires Chronological(events) && since <= n <= |events|
    ensures Chronological(events[since..n])
  {
  }

  // ----- probes and the cool-down -----

  /** Half open means exactly that a probe is in flight, whatever the clock does. */
  lemma {:induction false} HalfOpenIsProbing(c: Config, events: seq<Event>)
    ensures Run(c, INITIAL, events).probeInFlight <==> Run(c, INITIAL, events).mode.HalfOpen?
    decreases |events|
  {
    if events != [] { HalfOpenIsProbing(c, events[..|events| - 1]); }
  }

  /** The event at k opened the breaker. */
  predicate Trips(c: Config, events: seq<Event>, k: nat)
    requires k < |events|
  {
    !Run(c, INITIAL, events[..k]).mode.Open? && Run(c, INITIAL, events[..k + 1]).mode.Open?
  }

  lemma {:induction false} StaysOpen(c: Config, events: seq<Event>, k: nat, n: nat)
    requires Chronological(events) && k < n <= |events| && Trips(c, events, k)
    ensures var s := Run(c, INITIAL, events[..n]);
            || (s.mode.Open? && s.openedAt >= events[k].now)
            || exists m :: k < m < n && events[m].now >= events[k].now + c.openDuration
    decreases n
  {
    var before := events[..n - 1];
    assert events[..n][..n - 1] == before;
    if n > k + 1 {
      StaysOpen(c, events, k, n - 1);
      var s := Run(c, INITIAL, before);
      var e := events[n - 1];
      if s.mode.Open? && s.openedAt >= events[k].now && !Run(c, INITIAL, events[..n]).mode.Open? {
        assert e.now >= events[k].now + c.openDuration;
      }
    }
  }

  /** No request is admitted within the open duration of any trip. */
  lemma CoolsDown(c: Config, events: seq<Event>, k: nat, n: nat)
    requires Chronological(events) && k < n < |events| && Trips(c, events, k)
    requires events[n].Asked? && Admits(c, Run(c, INITIAL, events[..n]), events[n].now)
    ensures events[n].now >= events[k].now + c.openDuration
  {
    StaysOpen(c, events, k, n);
  }

  /**
   Over every history a request is admitted exactly when the recount of that history finds the breaker closed, or open
   for at least the open duration.
   */
  lemma AdmitsExactly(c: Config, events: seq<Event>, now: int)
    requires Chronological(events) && c.windowDuration > 0
    ensures var r := Replay(c, events);
            Admits(c, Run(c, INITIAL, events), now) <==>
            r.mode.Closed? || (r.mode.Open? && now >= r.openedAt + c.openDuration)
  {
    hide Run, Replay, Chronological, Times, Window;
    DecidesByRecount(c, events);
  }

  predicate Resolves(c: Config, e: Event) {
    e.Succeeded? || Qualifies(c, e)
  }

  /**
   Once half open, the breaker stays so and admits nothing until a success or a qualifying timeout is
   recorded: a probe that times out below the threshold leaves it rejecting every request.
   */
  lemma HalfOpenUntilResolved(c: Config, s: State, events: seq<Event>)
    requires s.mode.HalfOpen? && s.probeInFlight
    ensures (forall k :: 0 <= k < |events| ==> !Resolves(c, events[k])) <==>
            forall k :: 0 <= k <= |events| ==> Run(c, s, events[..k]) == s
    ensures forall now :: !Admits(c, s, now)
  {
    if forall k :: 0 <= k < |events| ==> !Resolves(c, events[k]) {
      forall k | 0 <= k <= |events|
        ensures Run(c, s, events[..k]) == s
      {
        Unresolved(c, s, events[..k]);
      }
    } else {
      var k :| 0 <= k < |events| && Resolves(c, events[k]);
      assert events[..k + 1][..k] == events[..k];
      assert Run(c, s, events[..k]) == s ==> Run(c, s, events[..k + 1]) != s;
    }
  }

  lemma {:induction false} Unresolved(c: Config, s: State, events: seq<Event>)
    requires s.mode.HalfOpen? && s.probeInFlight && forall k :: 0 <= k < |events| ==> !Resolves(c, events[k])
    ensures Run(c, s, events) == s
    decreases |events|
  {
    if events != [] { Unresolved(c, s, events[..|events| - 1]); }
  }

  // ----- the breaker object -----

  class Breaker {
    const config: Config
    var mode: Mode
    var stamps: seq<int>
    var openedAt: int
    var probeInFlight: bool

    ghost function Now(): State
      reads this
    {
      State(mode, stamps, openedAt, probeInFlight)
    }

    constructor (config: Config)
      ensures this.config == WithDefaults(config) && Now() == INITIAL
    {
      this.config := WithDefaults(config);
      mode, stamps, openedAt, probeInFlight := Closed, [], 0, false;
    }

    method Allow(now: int) returns (ok: bool)
      modifies this
      ensures ok == Admits(config, old(Now()), now) && Now() == Step(config, old(Now()), Asked(now))
    {
      match mode
      case Closed => return true;
      case Open =>
        if now - openedAt >= config.openDuration {
          mode, probeInFlight := HalfOpen, true;
          return true;
        }
        return false;
      case HalfOpen =>
        if probeInFlight { return false; }
        probeInFlight := true;
        return true;
    }

    method RecordTimeout(elapsed: int, now: int)
      modifies this
      ensures Now() == Step(config, old(Now()), TimedOut(elapsed, now))
    {
      if elapsed < config.timeoutThreshold { return; }
      match mode
      case Closed =>
        PruneStamps(now);
        stamps := stamps + [now];
        if |stamps| >= config.failureThreshold { Trip(now); }
      case HalfOpen => Trip(now);
      case Open =>
    }

    method RecordSuccess(ghost now: int)
      modifies this
      ensures Now() == Step(config, old(Now()), Succeeded(now))
    {
      match mode
      case HalfOpen => mode, stamps, probeInFlight := Closed, [], false;
      case Closed => stamps := [];
      case Open =>
    }

    method Trip(now: int)
      modifies this
      ensures Now() == Tripped(now)
    {
      mode, openedAt, probeInFlight, stamps := Open, now, false, [];
    }

    method PruneStamps(now: int)
      modifies `stamps
      ensures stamps == Pruned(old(stamps), now - config.windowDuration)
    {
      var cutoff := now - config.windowDuration;
      var i := 0;
      while i < |stamps| && stamps[i] < cutoff
        invariant 0 <= i <= |stamps| && stamps == old(stamps)
        invariant Pruned(stamps, cutoff) == Pruned(stamps[i..], cutoff)
      {
        assert stamps[i..][1..] == stamps[i + 1..];
        i := i + 1;
      }
      if i > 0 { stamps := stamps[i..]; }
    }
  }
}
