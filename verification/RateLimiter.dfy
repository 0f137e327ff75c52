/** Limiting requests per key in fixed windows: in memory, with sweeping, and by a script on
    expiring counters. Times are in milliseconds. */
module RateLimiter {
  import opened Wrappers

  const DEFAULT_WINDOW := 60000

  function WindowOf(window: int): (w: int)
    ensures w > 0 && (window > 0 ==> w == window) && (window <= 0 ==> w == 60000)
  {
    if window <= 0 then DEFAULT_WINDOW else window
  }

  // ----- In memory

  datatype Entry = Entry(windowStart: int, count: nat)

  datatype Memory = Memory(entries: map<string, Entry>, lastSweep: Option<int>)

  predicate Running(entries: map<string, Entry>, key: string, now: int, window: int) {
    key in entries && now - entries[key].windowStart < window
  }

  function Swept(entries: map<string, Entry>, now: int, window: int): map<string, Entry> {
    map k | k in entries && now - entries[k].windowStart < window :: entries[k]
  }

  predicate SweepDue(m: Memory, now: int, window: int) {
    m.lastSweep.None? || now - m.lastSweep.value >= window
  }

  function Maintained(m: Memory, now: int, window: int): Memory {
    if SweepDue(m, now, window) then Memory(Swept(m.entries, now, window), Some(now)) else m
  }

  predicate Admits(entries: map<string, Entry>, key: string, limit: int, now: int, window: int) {
    !Running(entries, key, now, window) || entries[key].count < limit
  }

  function Counted(entries: map<string, Entry>, key: string, limit: int, now: int, window: int): map<string, Entry> {
    if !Running(entries, key, now, window) then entries[key := Entry(now, 1)]
    else if entries[key].count < limit then entries[key := entries[key].(count := entries[key].count + 1)]
    else entries
  }

  function AfterRequest(m: Memory, key: string, limit: int, now: int, window: int): Memory {
    var swept := Maintained(m, now, window);
    swept.(entries := Counted(swept.entries, key, limit, now, window))
  }

  class AuthRateLimiter {
    var state: Memory

    constructor ()
      ensures state == Memory(map[], None)
    {
      state := Memory(map[], None);
    }

    method Sweep(now: int, window: int)
      modifies this
      ensures state == Memory(Swept(old(state).entries, now, window), Some(now))
    {
      var remaining, kept := state.entries.Keys, state.entries;
      while remaining != {}
        invariant remaining <= state.entries.Keys && state == old(state)
        invariant forall k :: k in kept <==> k in state.entries && (k in remaining || now - state.entries[k].windowStart < window)
        invariant forall k :: k in kept ==> kept[k] == state.entries[k]
        decreases remaining
      {
        var k :| k in remaining;
        remaining := remaining - {k};
        if now - state.entries[k].windowStart >= window {
          kept := kept - {k};
        }
      }
      assert kept == Swept(state.entries, now, window);
      state := Memory(kept, Some(now));
    }

    method Allow(key: string, limit: int, window: int, now: int) returns (allowed: bool, retryAfter: int)
      modifies this
      ensures limit <= 0 ==> allowed && retryAfter == 0 && state == old(state)
      ensures limit > 0 ==>
        && state == AfterRequest(old(state), key, limit, now, WindowOf(window))
        && allowed == Admits(Maintained(old(state), now, WindowOf(window)).entries, key, limit, now, WindowOf(window))
        && (allowed ==> retryAfter == 0)
        && (!allowed ==> key in old(state).entries && retryAfter == old(state).entries[key].windowStart + WindowOf(window) - now)
    {
      if limit <= 0 {
        return true, 0;
      }
      var w := if window <= 0 then DEFAULT_WINDOW else window;
      if state.lastSweep.None? || now - state.lastSweep.value >= w {
        Sweep(now, w);
      }
      if key !in state.entries || now - state.entries[key].windowStart >= w {
        state := state.(entries := state.entries[key := Entry(now, 1)]);
        return true, 0;
      }
      var entry := state.entries[key];
      if entry.count >= limit {
        return false, w - (now - entry.windowStart);
      }
      state := state.(entries := state.entries[key := entry.(count := entry.count + 1)]);
      return true, 0;
    }
  }

  // ----- The script

  datatype Counter = Counter(count: nat, expiresAt: int)

  predicate Present(counters: map<string, Counter>, key: string, now: int) {
    key in counters && now < counters[key].expiresAt
  }

  /** INCR creates an expired or missing counter anew; the first increment sets its expiry. */
  function Incremented(counters: map<string, Counter>, key: string, now: int, window: int): map<string, Counter> {
    if Present(counters, key, now) then counters[key := counters[key].(count := counters[key].count + 1)]
    else counters[key := Counter(1, now + window)]
  }

  class RedisLimiter {
    var counters: map<string, Counter>

    constructor ()
      ensures counters == map[]
    {
      counters := map[];
    }

    method Allow(key: string, limit: int, window: int, now: int) returns (allowed: bool, retryAfter: int)
      modifies this
      ensures limit <= 0 ==> allowed && retryAfter == 0 && counters == old(counters)
      ensures limit > 0 ==>
        && counters == Incremented(old(counters), key, now, WindowOf(window))
        && allowed == (counters[key].count <= limit) && retryAfter == counters[key].expiresAt - now
    {
      if limit <= 0 {
        return true, 0;
      }
      var w := if window <= 0 then DEFAULT_WINDOW else window;
      if !Present(counters, key, now) {
        counters := counters[key := Counter(0, now + w)];
      }
      counters := counters[key := counters[key].(count := counters[key].count + 1)];
      return counters[key].count <= limit, counters[key].expiresAt - now;
    }
  }

  // ----- Histories

  datatype Request = Request(key: string, at: int)

  /** Requests in order of time, on a clock that never runs back. */
  ghost predicate InOrder(requests: seq<Request>) {
    forall i, j :: 0 <= i <= j < |requests| ==> requests[i].at <= requests[j].at
  }

  function MemoryAfter(requests: seq<Request>, limit: int, window: int, n: nat): Memory
    requires n <= |requests|
  {
    if n == 0 then Memory(map[], None)
    else AfterRequest(MemoryAfter(requests, limit, window, n - 1), requests[n - 1].key, limit, requests[n - 1].at, window)
  }

  /** The same limiter, were it never to sweep. */
  function UnsweptAfter(requests: seq<Request>, limit: int, window: int, n: nat): map<string, Entry>
    requires n <= |requests|
  {
    if n == 0 then map[]
    else Counted(UnsweptAfter(requests, limit, window, n - 1), requests[n - 1].key, limit, requests[n - 1].at, window)
  }

  function CountersAfter(requests: seq<Request>, window: int, n: nat): map<string, Counter>
    requires n <= |requests|
  {
    if n == 0 then map[]
    else Incremented(CountersAfter(requests, window, n - 1), requests[n - 1].key, requests[n - 1].at, window)
  }

  /** The decision on request `i` by each of the three. */
  predicate MemoryAllows(requests: seq<Request>, limit: int, window: int, i: nat)
    requires i < |requests|
  {
    var r := requests[i];
    Admits(Maintained(MemoryAfter(requests, limit, window, i), r.at, window).entries, r.key, limit, r.at, window)
  }

  predicate UnsweptAllows(requests: seq<Request>, limit: int, window: int, i: nat)
    requires i < |requests|
  {
    Admits(UnsweptAfter(requests, limit, window, i), requests[i].key, limit, requests[i].at, window)
  }

  predicate ScriptAllows(requests: seq<Request>, limit: int, window: int, i: nat)
    requires i < |requests|
  {
    Incremented(CountersAfter(requests, window, i), requests[i].key, requests[i].at, window)[requests[i].key].count <= limit
  }

  /** The entry of a key and its counter run and expire together. */
  predicate Matches(entries: map<string, Entry>, counters: map<string, Counter>, key: string, limit: int, now: int, window: int) {
    && (Running(entries, key, now, window) <==> Present(counters, key, now))
    && (Running(entries, key, now, window) ==>
          && counters[key].expiresAt == entries[key].windowStart + window
          && entries[key].count == (if counters[key].count <= limit then counters[key].count else limit))
  }

  lemma MatchesLater(entries: map<string, Entry>, counters: map<string, Counter>, key: string, limit: int, now: int, later: int, window: int)
    requires Matches(entries, counters, key, limit, now, window) && now <= later
    ensures Matches(entries, counters, key, limit, later, window)
  {
  }

  lemma MaintainedMatches(m: Memory, counters: map<string, Counter>, key: string, limit: int, now: int, window: int)
    requires Matches(m.entries, counters, key, limit, now, window)
    ensures Matches(Maintained(m, now, window).entries, counters, key, limit, now, window)
  {
  }

  lemma CountedMatches(entries: map<string, Entry>, counters: map<string, Counter>, r: Request, key: string, limit: int, window: int)
    requires limit > 0 && window > 0
    requires Matches(entries, counters, r.key, limit, r.at, window) && Matches(entries, counters, key, limit, r.at, window)
    ensures Matches(Counted(entries, r.key, limit, r.at, window), Incremented(counters, r.key, r.at, window), key, limit, r.at, window)
    ensures Admits(entries, r.key, limit, r.at, window) <==> Incremented(counters, r.key, r.at, window)[r.key].count <= limit
  {
  }

  lemma {:induction false} MemoryMatches(requests: seq<Request>, limit: int, window: int, n: nat, key: string, now: int)
    requires InOrder(requests) && n <= |requests| && limit > 0 && window > 0
    requires n > 0 ==> requests[n - 1].at <= now
    ensures Matches(MemoryAfter(requests, limit, window, n).entries, CountersAfter(requests, window, n), key, limit, now, window)
  {
    if n > 0 {
      var r := requests[n - 1];
      MemoryMatches(requests, limit, window, n - 1, key, r.at);
      MemoryMatches(requests, limit, window, n - 1, r.key, r.at);
      var m, c := MemoryAfter(requests, limit, window, n - 1), CountersAfter(requests, window, n - 1);
      hide Matches;
      hide Maintained;
      hide Counted;
      hide Incremented;
      MaintainedMatches(m, c, key, limit, r.at, window);
      MaintainedMatches(m, c, r.key, limit, r.at, window);
      var swept := Maintained(m, r.at, window).entries;
      CountedMatches(swept, c, r, key, limit, window);
      MatchesLater(Counted(swept, r.key, limit, r.at, window), Incremented(c, r.key, r.at, window), key, limit, r.at, now, window);
    }
  }

  lemma {:induction false} UnsweptMatches(requests: seq<Request>, limit: int, window: int, n: nat, key: string, now: int)
    requires InOrder(requests) && n <= |requests| && limit > 0 && window > 0
    requires n > 0 ==> requests[n - 1].at <= now
    ensures Matches(UnsweptAfter(requests, limit, window, n), CountersAfter(requests, window, n), key, limit, now, window)
  {
    if n > 0 {
      var r := requests[n - 1];
      UnsweptMatches(requests, limit, window, n - 1, key, r.at);
      UnsweptMatches(requests, limit, window, n - 1, r.key, r.at);
      var e, c := UnsweptAfter(requests, limit, window, n - 1), CountersAfter(requests, window, n - 1);
      hide Matches;
      hide Counted;
      hide Incremented;
      CountedMatches(e, c, r, key, limit, window);
      MatchesLater(Counted(e, r.key, limit, r.at, window), Incremented(c, r.key, r.at, window), key, limit, r.at, now, window);
    }
  }

  /** On every history the limiter in memory and the script decide alike, and sweeping changes no
      decision. */
  lemma SameDecisions(requests: seq<Request>, limit: int, window: int, i: nat)
    requires InOrder(requests) && i < |requests| && limit > 0 && window > 0
    ensures MemoryAllows(requests, limit, window, i) <==> ScriptAllows(requests, limit, window, i)
    ensures MemoryAllows(requests, limit, window, i) <==> UnsweptAllows(requests, limit, window, i)
  {
    var r := requests[i];
    var m, c := MemoryAfter(requests, limit, window, i), CountersAfter(requests, window, i);
    var e := UnsweptAfter(requests, limit, window, i);
    MemoryMatches(requests, limit, window, i, r.key, r.at);
    UnsweptMatches(requests, limit, window, i, r.key, r.at);
    hide Matches;
    hide Admits;
    hide Incremented;
    hide Maintained;
    MaintainedMatches(m, c, r.key, limit, r.at, window);
    CountedMatches(Maintained(m, r.at, window).entries, c, r, r.key, limit, window);
    CountedMatches(e, c, r, r.key, limit, window);
  }

  // ----- How many requests any stretch of time admits

  predicate AdmittedIn(requests: seq<Request>, limit: int, window: int, key: string, from: int, i: nat)
    requires i < |requests|
  {
    requests[i].key == key && from <= requests[i].at < from + window && ScriptAllows(requests, limit, window, i)
  }

  /** How many of the first `n` requests of a key are admitted from `from` on for one window. */
  function AdmittedCount(requests: seq<Request>, limit: int, window: int, key: string, from: int, n: nat): nat
    requires n <= |requests|
  {
    if n == 0 then 0
    else AdmittedCount(requests, limit, window, key, from, n - 1) + (if AdmittedIn(requests, limit, window, key, from, n - 1) then 1 else 0)
  }

  lemma {:induction false} NoneAdmittedBefore(requests: seq<Request>, limit: int, window: int, key: string, from: int, n: nat)
    requires InOrder(requests) && n <= |requests| && (n > 0 ==> requests[n - 1].at < from)
    ensures AdmittedCount(requests, limit, window, key, from, n) == 0
  {
    hide ScriptAllows;
    if n > 1 {
      assert requests[n - 2].at <= requests[n - 1].at;
    }
    if n > 0 {
      NoneAdmittedBefore(requests, limit, window, key, from, n - 1);
    }
  }

  /** What the counter of a key says about the requests admitted so far. */
  ghost predicate Bounded(counters: map<string, Counter>, limit: int, window: int, key: string, from: int, admitted: nat, last: int) {
    if key !in counters then admitted == 0
    else
      var start := counters[key].expiresAt - window;
      var counted := if counters[key].count <= limit then counters[key].count else limit;
      && start <= last && counted >= 1
      && (start < from ==> admitted <= counted - 1)
      && (from <= start < from + window ==> admitted <= limit - 1 + counted)
      && (from + window <= start ==> admitted <= 2 * limit - 1)
  }

  lemma BoundedStep(counters: map<string, Counter>, r: Request, limit: int, window: int, key: string, from: int, admitted: nat, last: int)
    requires limit > 0 && window > 0 && last <= r.at && Bounded(counters, limit, window, key, from, admitted, last)
    requires r.at < from ==> admitted == 0
    ensures var after := Incremented(counters, r.key, r.at, window);
            Bounded(after, limit, window, key, from,
                    admitted + (if r.key == key && from <= r.at < from + window && after[r.key].count <= limit then 1 else 0), r.at)
  {
  }

  lemma {:induction false} AdmittedIsBounded(requests: seq<Request>, limit: int, window: int, key: string, from: int, n: nat)
    requires InOrder(requests) && 0 < n <= |requests| && limit > 0 && window > 0
    ensures Bounded(CountersAfter(requests, window, n), limit, window, key, from,
                    AdmittedCount(requests, limit, window, key, from, n), requests[n - 1].at)
  {
    var r, c := requests[n - 1], CountersAfter(requests, window, n - 1);
    var last := if n > 1 then requests[n - 2].at else r.at;
    if n > 1 {
      AdmittedIsBounded(requests, limit, window, key, from, n - 1);
      if r.at < from {
        NoneAdmittedBefore(requests, limit, window, key, from, n - 1);
      }
    }
    var admitted := AdmittedCount(requests, limit, window, key, from, n - 1);
    assert Bounded(c, limit, window, key, from, admitted, last);
    hide Bounded;
    hide Incremented;
    BoundedStep(c, r, limit, window, key, from, admitted, last);
  }

  /** No half-open stretch as long as the window admits twice the limit. */
  lemma FewerThanTwiceTheLimit(requests: seq<Request>, limit: int, window: int, key: string, from: int)
    requires InOrder(requests) && limit > 0 && window > 0
    ensures AdmittedCount(requests, limit, window, key, from, |requests|) < 2 * limit
  {
    if requests != [] {
      AdmittedIsBounded(requests, limit, window, key, from, |requests|);
      hide CountersAfter;
      hide AdmittedCount;
    }
  }

  /** One request at the start of a window, the rest of the limit in its last moment, and the limit
      again as the next window begins. */
  function Burst(key: string, limit: nat, window: int): seq<Request> {
    seq(2 * limit, i => Request(key, if i == 0 then 0 else if i < limit then window - 1 else window))
  }

  lemma {:induction false} BurstCounters(key: string, limit: nat, window: int, n: nat)
    requires limit > 0 && window > 1 && 0 < n <= 2 * limit
    ensures var counters := CountersAfter(Burst(key, limit, window), window, n);
            key in counters && counters[key] == if n <= limit then Counter(n, window) else Counter(n - limit, 2 * window)
  {
    if n > 1 {
      BurstCounters(key, limit, window, n - 1);
    }
  }

  lemma {:induction false} BurstIsAdmitted(key: string, limit: nat, window: int, n: nat)
    requires limit > 0 && window > 1 && 0 < n <= 2 * limit
    ensures AdmittedCount(Burst(key, limit, window), limit, window, key, window - 1, n) == n - 1
  {
    var requests := Burst(key, limit, window);
    BurstCounters(key, limit, window, n);
    assert AdmittedIn(requests, limit, window, key, window - 1, n - 1) <==> n > 1;
    hide AdmittedIn;
    hide CountersAfter;
    if n > 1 {
      BurstIsAdmitted(key, limit, window, n - 1);
    }
  }

  /** The bound is reached for every limit: twice the limit less one within one window length. */
  lemma TwiceTheLimitIsTight(key: string, limit: nat, window: int)
    requires limit > 0 && window > 1
    ensures var requests := Burst(key, limit, window);
            InOrder(requests) && AdmittedCount(requests, limit, window, key, window - 1, |requests|) == 2 * limit - 1
  {
    BurstIsAdmitted(key, limit, window, 2 * limit);
  }

  /** All callers must use one window: a sweep for a shorter window forgets a key that a longer
      window still refuses. */
  lemma SweepNeedsOneWindow(a: string, b: string)
    requires a != b
    ensures var m := Memory(map[a := Entry(0, 1)], Some(0));
            var after := AfterRequest(m, b, 1, 10, 10);
            !Admits(m.entries, a, 1, 11, 60) && Admits(after.entries, a, 1, 11, 60)
  {
    assert a !in Swept(map[a := Entry(0, 1)], 10, 10);
  }
}
