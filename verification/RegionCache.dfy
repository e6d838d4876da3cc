/**
 The region lookups of the procurement client: a single-flight cache with first-in first-out
 eviction and a lookup budget, under any interleaving of its callers.
 */
module RegionCache {
  import opened Basics

  type Key = string

  const CACHE_LIMIT: nat := 500

  /** The key of a notice: number and sequence around a NUL. */
  function CacheKey(number: string, sequence: string): Key {
    number + "\0" + sequence
  }

  /** History, in the order of the critical sections. */
  datatype Event = Started(key: Key) | Failed(key: Key) | Cached(key: Key, region: string) | Evicted(key: Key)

  /**
   `calls` are the pending fetches by key. `started` and `results` record each fetch's key and, once
   its channel is closed, what its owner and all its waiters are given: None is the fetch's error.
   */
  datatype State = State(
    regions: map<Key, string>, keys: seq<Key>, calls: map<Key, nat>, lookups: nat,
    started: map<nat, Key>, results: map<nat, Option<string>>, log: seq<Event>)

  /** What the first critical section tells a caller. */
  datatype Entry = Hit(region: string) | Wait(call: nat) | Exhausted | Fetch(call: nat)

  /** The first critical section of LookupRegion. */
  function Enter(s: State, budget: nat, k: Key): (State, Entry) {
    if k in s.regions then (s, Hit(s.regions[k]))
    else if k in s.calls then (s, Wait(s.calls[k]))
    else if s.lookups >= budget then (s, Exhausted)
    else
      var call := s.lookups;
      (s.(lookups := s.lookups + 1, calls := s.calls[k := call], started := s.started[call := k],
          log := s.log + [Started(k)]),
       Fetch(call))
  }

  /** delete(m, k) */
  function Drop(m: map<Key, string>, k: Key): (r: map<Key, string>)
    ensures forall o :: o in r <==> o in m && o != k
    ensures forall o <- r :: r[o] == m[o]
    ensures k in m ==> |r| == |m| - 1
  {
    assert (m - {k}).Keys == m.Keys - {k};
    m - {k}
  }

  /** cacheRegionLocked */
  function Store(s: State, k: Key, region: string): State {
    var full := |s.regions| >= CACHE_LIMIT;
    if full && s.keys != [] then
      s.(regions := Drop(s.regions, s.keys[0])[k := region], keys := s.keys[1..] + [k],
         log := s.log + [Evicted(s.keys[0]), Cached(k, region)])
    else
      s.(regions := s.regions[k := region], keys := s.keys + [k], log := s.log + [Cached(k, region)])
  }

  /** The second critical section, by the owner of the pending fetch. */
  function Finish(s: State, k: Key, result: Option<string>): State
    requires k in s.calls
  {
    var stored := if result.Some? then Store(s, k, result.value) else s.(log := s.log + [Failed(k)]);
    stored.(results := s.results[s.calls[k] := result], calls := s.calls - {k})
  }

  datatype Action = DoEnter(key: Key) | DoFinish(key: Key, result: Option<string>)

  function Step(s: State, budget: nat, a: Action): State {
    match a
    case DoEnter(k) => Enter(s, budget, k).0
    case DoFinish(k, result) => if k in s.calls then Finish(s, k, result) else s
  }

  /** Any interleaving: callers enter at any time, and each pending fetch ends at any time. */
  function Run(s: State, budget: nat, run: seq<Action>): State
    decreases |run|
  {
    if run == [] then s else Run(Step(s, budget, run[0]), budget, run[1..])
  }

  const EMPTY := State(map[], [], map[], 0, map[], map[], [])

  // ---- counting history ----

  function CachedKeys(log: seq<Event>): seq<Key> {
    if log == [] then []
    else
      var e := log[|log| - 1];
      CachedKeys(log[..|log| - 1]) + if e.Cached? then [e.key] else []
  }

  function EvictedKeys(log: seq<Event>): seq<Key> {
    if log == [] then []
    else
      var e := log[|log| - 1];
      EvictedKeys(log[..|log| - 1]) + if e.Evicted? then [e.key] else []
  }

  function Starts(log: seq<Event>, k: Key): nat {
    if log == [] then 0 else Starts(log[..|log| - 1], k) + if log[|log| - 1] == Started(k) then 1 else 0
  }

  function Failures(log: seq<Event>, k: Key): nat {
    if log == [] then 0 else Failures(log[..|log| - 1], k) + if log[|log| - 1] == Failed(k) then 1 else 0
  }

  function Evictions(log: seq<Event>, k: Key): nat {
    if log == [] then 0 else Evictions(log[..|log| - 1], k) + if log[|log| - 1] == Evicted(k) then 1 else 0
  }

  function Total(log: seq<Event>): nat {
    if log == [] then 0 else Total(log[..|log| - 1]) + if log[|log| - 1].Started? then 1 else 0
  }

  lemma Appended(log: seq<Event>, e: Event, k: Key)
    ensures CachedKeys(log + [e]) == CachedKeys(log) + if e.Cached? then [e.key] else []
    ensures EvictedKeys(log + [e]) == EvictedKeys(log) + if e.Evicted? then [e.key] else []
    ensures Starts(log + [e], k) == Starts(log, k) + if e == Started(k) then 1 else 0
    ensures Failures(log + [e], k) == Failures(log, k) + if e == Failed(k) then 1 else 0
    ensures Evictions(log + [e], k) == Evictions(log, k) + if e == Evicted(k) then 1 else 0
    ensures Total(log + [e]) == Total(log) + if e.Started? then 1 else 0
  {
    assert (log + [e])[..|log + [e]| - 1] == log;
  }

  // ---- the invariant ----

  ghost predicate NoDuplicates(keys: seq<Key>) {
    forall i, j :: 0 <= i < j < |keys| ==> keys[i] != keys[j]
  }

  function One(b: bool): nat {
    if b then 1 else 0
  }

  /** The queue lists the cached keys once each, and none of them is in flight. */
  ghost predicate CacheInv(s: State) {
    && NoDuplicates(s.keys)
    && (forall k :: k in s.keys <==> k in s.regions)
    && |s.regions| == |s.keys| <= CACHE_LIMIT
    && s.regions.Keys !! s.calls.Keys
  }

  /** Fetches, their owners and their results. */
  ghost predicate FlightInv(s: State) {
    && (forall c: nat :: c in s.started <==> c < s.lookups)
    && (forall c <- s.results :: c in s.started)
    && (forall k <- s.calls :: PendingCall(s, k, s.calls[k]))
    && (forall c <- s.started :: c !in s.results ==> CallOf(s, s.started[c], c))
  }

  predicate PendingCall(s: State, k: Key, c: nat) {
    c in s.started && s.started[c] == k && c !in s.results
  }

  predicate CallOf(s: State, k: Key, c: nat) {
    k in s.calls && s.calls[k] == c
  }

  ghost predicate ValueInv(s: State) {
    forall k <- s.regions :: FromFetch(s, k, s.regions[k])
  }

  /** The value is what some finished fetch of this key returned. */
  ghost predicate FromFetch(s: State, k: Key, region: string) {
    exists c :: c in s.results && c in s.started && s.started[c] == k && s.results[c] == Some(region)
  }

  ghost predicate LogInv(s: State) {
    && CachedKeys(s.log) == EvictedKeys(s.log) + s.keys
    && (EvictedKeys(s.log) != [] ==> |s.keys| == CACHE_LIMIT)
    && Total(s.log) == s.lookups
    && forall k :: Balanced(s, k)
  }

  /** Every fetch of a key is in flight, failed, evicted or still cached. */
  ghost predicate Balanced(s: State, k: Key) {
    Starts(s.log, k) == One(k in s.calls) + Failures(s.log, k) + Evictions(s.log, k) + One(k in s.regions)
  }

  ghost predicate Inv(s: State) {
    CacheInv(s) && FlightInv(s) && ValueInv(s) && LogInv(s)
  }

  lemma FetchKeepsFlights(s: State, budget: nat, k: Key)
    requires FlightInv(s) && ValueInv(s) && Enter(s, budget, k).1.Fetch?
    ensures FlightInv(Enter(s, budget, k).0) && ValueInv(Enter(s, budget, k).0)
  {
    var s' := Enter(s, budget, k).0;
    forall o | o in s'.calls ensures PendingCall(s', o, s'.calls[o]) {
      assert o != k ==> PendingCall(s, o, s.calls[o]);
    }
    forall c | c in s'.started && c !in s'.results ensures CallOf(s', s'.started[c], c) {
      assert c != s.lookups ==> CallOf(s, s.started[c], c);
    }
    forall r | r in s'.regions ensures FromFetch(s', r, s'.regions[r]) {
      assert FromFetch(s, r, s.regions[r]);
      MoreFetches(s, s', r, s.regions[r]);
    }
  }

  /** A value stays justified while fetches and results are only added. */
  lemma MoreFetches(s: State, s': State, k: Key, region: string)
    requires FromFetch(s, k, region)
    requires forall c <- s.started :: c in s'.started && s'.started[c] == s.started[c]
    requires forall c <- s.results :: c in s'.results && s'.results[c] == s.results[c]
    ensures FromFetch(s', k, region)
  {
    var c :| c in s.results && c in s.started && s.started[c] == k && s.results[c] == Some(region);
    assert c in s'.results && c in s'.started && s'.started[c] == k && s'.results[c] == Some(region);
  }

  lemma FetchKeepsLog(s: State, budget: nat, k: Key)
    requires LogInv(s) && Enter(s, budget, k).1.Fetch?
    ensures LogInv(Enter(s, budget, k).0)
  {
    var s' := Enter(s, budget, k).0;
    Appended(s.log, Started(k), k);
    forall o ensures Balanced(s', o) {
      assert Balanced(s, o);
      Appended(s.log, Started(k), o);
    }
  }

  lemma EnterKeepsInv(s: State, budget: nat, k: Key)
    requires Inv(s)
    ensures Inv(Enter(s, budget, k).0)
  {
    hide NoDuplicates, FlightInv, ValueInv, LogInv;
    if Enter(s, budget, k).1.Fetch? {
      FetchKeepsFlights(s, budget, k);
      FetchKeepsLog(s, budget, k);
    }
  }

  /** The part of CacheInv about the queue. */
  ghost predicate QueueInv(keys: seq<Key>, regions: map<Key, string>) {
    NoDuplicates(keys) && (forall k :: k in keys <==> k in regions) && |regions| == |keys|
  }

  lemma TailDistinct(keys: seq<Key>)
    requires NoDuplicates(keys) && keys != []
    ensures NoDuplicates(keys[1..]) && keys[0] !in keys[1..]
  {
    var tail := keys[1..];
    forall i, j | 0 <= i < j < |tail| ensures tail[i] != tail[j] {
      assert tail[i] == keys[i + 1] && tail[j] == keys[j + 1];
    }
    forall i | 0 <= i < |tail| ensures tail[i] != keys[0] {
      assert tail[i] == keys[i + 1];
    }
  }

  lemma Pop(keys: seq<Key>, regions: map<Key, string>)
    requires QueueInv(keys, regions) && keys != []
    ensures QueueInv(keys[1..], Drop(regions, keys[0]))
  {
    hide NoDuplicates, Drop;
    TailDistinct(keys);
    assert keys == [keys[0]] + keys[1..];
  }

  lemma Push(keys: seq<Key>, regions: map<Key, string>, k: Key, region: string)
    requires QueueInv(keys, regions) && k !in regions
    ensures QueueInv(keys + [k], regions[k := region])
  {
    assert k !in keys;
    assert regions[k := region].Keys == regions.Keys + {k};
  }

  lemma StoreKeepsCache(s: State, k: Key, region: string)
    requires CacheInv(s) && k !in s.regions
    ensures var s' := Store(s, k, region);
      && QueueInv(s'.keys, s'.regions) && |s'.keys| <= CACHE_LIMIT
      && s'.regions.Keys <= s.regions.Keys + {k} && k in s'.regions && s'.regions[k] == region
      && forall o <- s'.regions :: o != k ==> o in s.regions && s'.regions[o] == s.regions[o]
  {
    hide NoDuplicates, Drop;
    if |s.regions| >= CACHE_LIMIT {
      Pop(s.keys, s.regions);
      Push(s.keys[1..], Drop(s.regions, s.keys[0]), k, region);
    } else {
      Push(s.keys, s.regions, k, region);
    }
  }

  lemma EvictBalances(s: State, k: Key, region: string, o: Key)
    requires CacheInv(s) && k in s.calls && |s.regions| >= CACHE_LIMIT && Balanced(s, o)
    ensures Balanced(Finish(s, k, Some(region)), o)
  {
    hide NoDuplicates, Drop, CachedKeys, EvictedKeys, Total;
    var evicted := s.log + [Evicted(s.keys[0])];
    assert Finish(s, k, Some(region)).log == evicted + [Cached(k, region)];
    Appended(s.log, Evicted(s.keys[0]), o);
    Appended(evicted, Cached(k, region), o);
    assert s.keys[0] in s.keys;
  }

  lemma EvictQueues(s: State, k: Key, region: string)
    requires CacheInv(s) && LogInv(s) && k in s.calls && |s.regions| >= CACHE_LIMIT
    ensures var s' := Finish(s, k, Some(region));
      CachedKeys(s'.log) == EvictedKeys(s'.log) + s'.keys && Total(s'.log) == s'.lookups && |s'.keys| == CACHE_LIMIT
  {
    hide NoDuplicates, Drop, Balanced, Starts, Failures, Evictions;
    var evicted := s.log + [Evicted(s.keys[0])];
    assert Finish(s, k, Some(region)).log == evicted + [Cached(k, region)];
    Appended(s.log, Evicted(s.keys[0]), k);
    Appended(evicted, Cached(k, region), k);
    assert s.keys == [s.keys[0]] + s.keys[1..];
  }

  lemma EvictKeepsLog(s: State, k: Key, region: string)
    requires CacheInv(s) && LogInv(s) && k in s.calls && |s.regions| >= CACHE_LIMIT
    ensures LogInv(Finish(s, k, Some(region)))
  {
    hide CacheInv, Balanced, Finish;
    EvictQueues(s, k, region);
    forall o ensures Balanced(Finish(s, k, Some(region)), o) {
      EvictBalances(s, k, region, o);
    }
  }

  lemma CacheBalances(s: State, k: Key, region: string, o: Key)
    requires CacheInv(s) && k in s.calls && |s.regions| < CACHE_LIMIT && Balanced(s, o)
    ensures Balanced(Finish(s, k, Some(region)), o)
  {
    hide NoDuplicates, CachedKeys, EvictedKeys, Total;
    Appended(s.log, Cached(k, region), o);
  }

  lemma CacheQueues(s: State, k: Key, region: string)
    requires CacheInv(s) && LogInv(s) && k in s.calls && |s.regions| < CACHE_LIMIT
    ensures var s' := Finish(s, k, Some(region));
      && CachedKeys(s'.log) == EvictedKeys(s'.log) + s'.keys && Total(s'.log) == s'.lookups
      && EvictedKeys(s'.log) == []
  {
    hide NoDuplicates, Balanced, Starts, Failures, Evictions;
    Appended(s.log, Cached(k, region), k);
  }

  lemma CacheKeepsLog(s: State, k: Key, region: string)
    requires CacheInv(s) && LogInv(s) && k in s.calls && |s.regions| < CACHE_LIMIT
    ensures LogInv(Finish(s, k, Some(region)))
  {
    hide CacheInv, Balanced, Finish;
    CacheQueues(s, k, region);
    forall o ensures Balanced(Finish(s, k, Some(region)), o) {
      CacheBalances(s, k, region, o);
    }
  }

  lemma FailKeepsLog(s: State, k: Key)
    requires CacheInv(s) && LogInv(s) && k in s.calls
    ensures LogInv(Finish(s, k, None))
  {
    hide NoDuplicates;
    var s' := Finish(s, k, None);
    Appended(s.log, Failed(k), k);
    forall o ensures Balanced(s', o) {
      assert Balanced(s, o);
      Appended(s.log, Failed(k), o);
    }
  }

  lemma FinishKeepsFlights(s: State, k: Key, result: Option<string>)
    requires FlightInv(s) && k in s.calls
    ensures FlightInv(Finish(s, k, result))
  {
    if result.Some? {
      StoreFrame(s, k, result.value);
    }
    hide Store;
    var s' := Finish(s, k, result);
    assert PendingCall(s, k, s.calls[k]);
    forall o | o in s'.calls ensures PendingCall(s', o, s'.calls[o]) {
      assert PendingCall(s, o, s.calls[o]);
    }
    forall c | c in s'.started && c !in s'.results ensures CallOf(s', s'.started[c], c) {
      assert CallOf(s, s.started[c], c);
    }
  }

  /** What the owner caches is the result it publishes. */
  lemma OwnResult(s: State, k: Key, result: Option<string>)
    requires FlightInv(s) && k in s.calls
    ensures var s' := Finish(s, k, result);
      && (result.Some? ==> FromFetch(s', k, result.value))
      && s'.started == s.started && forall c <- s.results :: c in s'.results && s'.results[c] == s.results[c]
  {
    if result.Some? {
      StoreFrame(s, k, result.value);
    }
    hide Store;
    assert PendingCall(s, k, s.calls[k]);
    var s' := Finish(s, k, result);
    assert s'.results[s.calls[k]] == result && s'.started[s.calls[k]] == k;
  }

  lemma FinishKeepsValues(s: State, k: Key, result: Option<string>)
    requires CacheInv(s) && FlightInv(s) && ValueInv(s) && k in s.calls
    ensures ValueInv(Finish(s, k, result))
  {
    hide CacheInv, FlightInv, FromFetch, QueueInv;
    var s' := Finish(s, k, result);
    OwnResult(s, k, result);
    NotCached(s, k);
    if result.Some? {
      StoreKeepsCache(s, k, result.value);
    }
    hide Store;
    forall r | r in s'.regions ensures FromFetch(s', r, s'.regions[r]) {
      if r != k || result.None? {
        MoreFetches(s, s', r, s.regions[r]);
      }
    }
  }

  lemma NotCached(s: State, k: Key)
    requires CacheInv(s) && k in s.calls
    ensures k !in s.regions
  {
  }

  lemma StoreFrame(s: State, k: Key, region: string)
    ensures var s' := Store(s, k, region);
      s'.calls == s.calls && s'.lookups == s.lookups && s'.started == s.started && s'.results == s.results
  {
    hide Drop;
  }

  lemma FinishKeepsCache(s: State, k: Key, result: Option<string>)
    requires CacheInv(s) && k in s.calls
    ensures CacheInv(Finish(s, k, result))
  {
    hide NoDuplicates;
    if result.Some? {
      StoreKeepsCache(s, k, result.value);
      StoreFrame(s, k, result.value);
    }
    hide Store;
  }

  lemma FinishKeepsInv(s: State, k: Key, result: Option<string>)
    requires Inv(s) && k in s.calls
    ensures Inv(Finish(s, k, result))
  {
    hide CacheInv, FlightInv, ValueInv, LogInv, Finish;
    FinishKeepsCache(s, k, result);
    FinishKeepsFlights(s, k, result);
    FinishKeepsValues(s, k, result);
    if result.None? {
      FailKeepsLog(s, k);
    } else if |s.regions| >= CACHE_LIMIT {
      EvictKeepsLog(s, k, result.value);
    } else {
      CacheKeepsLog(s, k, result.value);
    }
  }

  lemma StepKeepsInv(s: State, budget: nat, a: Action)
    requires Inv(s)
    ensures Inv(Step(s, budget, a))
    ensures s.lookups <= budget ==> Step(s, budget, a).lookups <= budget
  {
    hide Inv;
    match a
    case DoEnter(k) => EnterKeepsInv(s, budget, k);
    case DoFinish(k, result) =>
      if k in s.calls {
        FinishKeepsInv(s, k, result);
      }
  }

  lemma {:induction false} RunKeepsInv(s: State, budget: nat, run: seq<Action>)
    requires Inv(s) && s.lookups <= budget
    ensures Inv(Run(s, budget, run)) && Run(s, budget, run).lookups <= budget
    decreases |run|
  {
    if run != [] {
      hide Inv;
      StepKeepsInv(s, budget, run[0]);
      RunKeepsInv(Step(s, budget, run[0]), budget, run[1..]);
    }
  }

  lemma EmptyInv()
    ensures Inv(EMPTY)
  {
    assert EMPTY.regions.Keys == {};
  }

  lemma Reachable(budget: nat, run: seq<Action>)
    ensures Inv(Run(EMPTY, budget, run)) && Run(EMPTY, budget, run).lookups <= budget
  {
    hide Inv;
    EmptyInv();
    RunKeepsInv(EMPTY, budget, run);
  }

  // ---- theorems ----

  /**
   What a caller is told: the cached region, or the pending fetch of its key, or that the budget is used
   up; otherwise it starts a new fetch, and that alone is recorded.
   */
  lemma EnterMeans(budget: nat, run: seq<Action>, k: Key)
    ensures var s := Run(EMPTY, budget, run); var (next, entry) := Enter(s, budget, k);
      && (entry.Hit? <==> k in s.regions) && (entry.Hit? ==> entry.region == s.regions[k])
      && (entry.Wait? <==> k in s.calls)
      && (entry.Wait? ==> entry.call in s.started && s.started[entry.call] == k && entry.call !in s.results)
      && (entry.Exhausted? <==> k !in s.regions && k !in s.calls && s.lookups == budget)
      && (!entry.Fetch? ==> next == s)
      && (entry.Fetch? ==>
            && entry.call !in s.started && next.started == s.started[entry.call := k]
            && next.calls == s.calls[k := entry.call] && next.lookups == s.lookups + 1
            && next.regions == s.regions && next.keys == s.keys && next.results == s.results)
  {
    Reachable(budget, run);
    var s := Run(EMPTY, budget, run);
    if k in s.calls {
      assert PendingCall(s, k, s.calls[k]);
    }
  }

  /**
   When the pending fetch of a key ends, its result is what every waiter is given and the key is no longer
   pending. A region is cached, at the end of the queue, in place of the oldest key if there are 500; an
   error leaves the cache as it was.
   */
  lemma FinishMeans(budget: nat, run: seq<Action>, k: Key, result: Option<string>)
    requires k in Run(EMPTY, budget, run).calls
    ensures var s := Run(EMPTY, budget, run); var next := Finish(s, k, result);
      && next.results == s.results[s.calls[k] := result] && s.calls[k] !in s.results
      && next.calls.Keys == s.calls.Keys - {k} && (forall o <- next.calls :: next.calls[o] == s.calls[o])
      && next.started == s.started && next.lookups == s.lookups
      && (result.None? ==> next.regions == s.regions && next.keys == s.keys)
      && (result.Some? && |s.keys| < 500 ==>
            next.regions == s.regions[k := result.value] && next.keys == s.keys + [k])
      && (result.Some? && |s.keys| == 500 ==>
            && next.keys == s.keys[1..] + [k]
            && next.regions == (s.regions - {s.keys[0]})[k := result.value])
      && |s.keys| <= 500
  {
    Reachable(budget, run);
    var s := Run(EMPTY, budget, run);
    assert PendingCall(s, k, s.calls[k]);
  }

  /** In every interleaving a key has at most one unfinished fetch, none while it is cached, and the budget holds. */
  lemma SingleFlightWithinBudget(budget: nat, run: seq<Action>)
    ensures var s := Run(EMPTY, budget, run);
      && s.lookups <= budget && (forall c: nat :: c in s.started <==> c < s.lookups)
      && (forall c, d ::
            c in s.started && d in s.started && c !in s.results && d !in s.results && s.started[c] == s.started[d] ==>
              c == d)
      && (forall c <- s.started :: c !in s.results ==> s.started[c] !in s.regions)
  {
    Reachable(budget, run);
    var s := Run(EMPTY, budget, run);
    forall c, d | c in s.started && d in s.started && c !in s.results && d !in s.results && s.started[c] == s.started[d]
      ensures c == d
    {
      assert CallOf(s, s.started[c], c) && CallOf(s, s.started[d], d);
    }
  }

  /** The eviction queue is the most recent insertions, at most 500, in their order. */
  lemma QueueIsTheLastInsertions(budget: nat, run: seq<Action>)
    ensures var s := Run(EMPTY, budget, run); var inserted := CachedKeys(s.log);
      && s.keys == (if |inserted| <= CACHE_LIMIT then inserted else inserted[|inserted| - CACHE_LIMIT..])
      && EvictedKeys(s.log) == inserted[..|inserted| - |s.keys|]
      && (forall k :: k in s.regions <==> k in s.keys) && NoDuplicates(s.keys)
  {
    Reachable(budget, run);
    var s := Run(EMPTY, budget, run);
    var inserted := CachedKeys(s.log);
    assert inserted == EvictedKeys(s.log) + s.keys;
    assert s.keys == inserted[|inserted| - |s.keys|..];
  }

  /** A key is fetched once, and again only for each fetch that failed and each value that was evicted. */
  lemma RefetchesAreAccountedFor(budget: nat, run: seq<Action>, k: Key)
    ensures var s := Run(EMPTY, budget, run);
      Starts(s.log, k) <= 1 + Failures(s.log, k) + Evictions(s.log, k)
    ensures var s := Run(EMPTY, budget, run);
      Starts(s.log, k) == One(k in s.calls) + Failures(s.log, k) + Evictions(s.log, k) + One(k in s.regions)
  {
    Reachable(budget, run);
    assert Balanced(Run(EMPTY, budget, run), k);
  }

  /**
   Whatever a caller is answered is what a fetch of its own key returned: from the cache, or from the
   call it waited for.
   */
  lemma AnswersComeFromFetches(budget: nat, run: seq<Action>, k: Key, later: seq<Action>)
    ensures var s := Run(EMPTY, budget, run); var (entered, entry) := Enter(s, budget, k);
      var end := Run(entered, budget, later);
      match entry
      case Hit(region) => FromFetch(s, k, region)
      case Wait(call) => call in end.started && end.started[call] == k
        && (call in end.results ==> (call in s.started && call !in s.results))
      case Fetch(call) => call in end.started && end.started[call] == k && call !in s.started
      case Exhausted => s.lookups == budget
  {
    Reachable(budget, run);
    var s := Run(EMPTY, budget, run);
    var (entered, entry) := Enter(s, budget, k);
    match entry
    case Hit(region) => assert FromFetch(s, k, s.regions[k]);
    case Wait(call) => CallsKeepTheirKey(entered, budget, later, call);
    case Fetch(call) =>
      EnterKeepsInv(s, budget, k);
      CallsKeepTheirKey(entered, budget, later, call);
    case Exhausted =>
  }

  /** A fetch keeps its key, and its result is written once. */
  lemma {:induction false} CallsKeepTheirKey(s: State, budget: nat, run: seq<Action>, call: nat)
    requires Inv(s) && call in s.started
    ensures var end := Run(s, budget, run);
      && call in end.started && end.started[call] == s.started[call]
      && (call in s.results ==> call in end.results && end.results[call] == s.results[call])
    decreases |run|
  {
    if run != [] {
      StepKeepsInv(s, budget, run[0]);
      CallStep(s, budget, run[0], call);
      CallsKeepTheirKey(Step(s, budget, run[0]), budget, run[1..], call);
    }
  }

  lemma CallStep(s: State, budget: nat, a: Action, call: nat)
    requires Inv(s) && call in s.started
    ensures var next := Step(s, budget, a);
      && call in next.started && next.started[call] == s.started[call]
      && (call in s.results ==> call in next.results && next.results[call] == s.results[call])
  {
    hide CacheInv, ValueInv, LogInv;
    if a.DoFinish? && a.key in s.calls {
      assert PendingCall(s, a.key, s.calls[a.key]);
      if a.result.Some? {
        StoreFrame(s, a.key, a.result.value);
      }
      hide Store;
    }
  }

  /** Numbers without a NUL never share a key. */
  lemma CacheKeyInjective(a: string, b: string, c: string, d: string)
    requires '\0' !in a && '\0' !in c && CacheKey(a, b) == CacheKey(c, d)
    ensures a == c && b == d
  {
    assert CacheKey(a, b)[|a|] == '\0' && CacheKey(c, d)[|c|] == '\0';
    if |a| < |c| {
      assert false;
    } else if |c| < |a| {
      assert false;
    }
    assert a == CacheKey(a, b)[..|a|] && c == CacheKey(c, d)[..|c|];
    assert b == CacheKey(a, b)[|a| + 1..] && d == CacheKey(c, d)[|c| + 1..];
  }

  // ---- the code ----

  class Client {
    const budget: nat
    var regions: map<Key, string>
    var regionKeys: seq<Key>
    var regionCalls: map<Key, nat>
    var lookups: nat
    ghost var started: map<nat, Key>
    ghost var results: map<nat, Option<string>>
    ghost var log: seq<Event>

    ghost function Abstract(): State
      reads this
    {
      State(regions, regionKeys, regionCalls, lookups, started, results, log)
    }

    ghost predicate Valid()
      reads this
    {
      Inv(Abstract())
    }

    constructor (budget: nat)
      ensures Valid() && Abstract() == EMPTY && this.budget == budget
    {
      this.budget := budget;
      regions, regionKeys, regionCalls, lookups := map[], [], map[], 0;
      started, results, log := map[], map[], [];
      new;
      EmptyInv();
    }

    /** Under the mutex: a cached region, a fetch to wait for, an exhausted budget, or a new fetch. */
    method BeginLookup(key: Key) returns (entry: Entry)
      requires Valid()
      modifies this
      ensures Valid()
      ensures (Abstract(), entry) == Enter(old(Abstract()), budget, key)
    {
      hide Inv;
      EnterKeepsInv(Abstract(), budget, key);
      if key in regions {
        return Hit(regions[key]);
      }
      if key in regionCalls {
        return Wait(regionCalls[key]);
      }
      if lookups >= budget {
        return Exhausted;
      }
      regionCalls := regionCalls[key := lookups];
      started, log := started[lookups := key], log + [Started(key)];
      lookups := lookups + 1;
      return Fetch(lookups - 1);
    }

    /** Under the mutex: cache a success and release those who wait. */
    method FinishLookup(key: Key, result: Option<string>)
      requires Valid() && key in regionCalls
      modifies this
      ensures Valid()
      ensures Abstract() == Finish(old(Abstract()), key, result)
    {
      hide Inv, CacheInv;
      FinishKeepsInv(Abstract(), key, result);
      CacheOf(Abstract());
      NotCached(Abstract(), key);
      if result.Some? {
        CacheRegion(key, result.value);
      } else {
        log := log + [Failed(key)];
      }
      results := results[regionCalls[key] := result];
      regionCalls := regionCalls - {key};
    }

    lemma CacheOf(s: State)
      requires Inv(s)
      ensures CacheInv(s)
    {
    }

    method CacheRegion(key: Key, region: string)
      requires CacheInv(Abstract()) && key !in regions
      modifies this`regions, this`regionKeys, this`log
      ensures Abstract() == Store(old(Abstract()), key, region)
    {
      ghost var before := Abstract();
      assert |regions| == |regionKeys|;
      hide CacheInv, Drop;
      if |regions| >= CACHE_LIMIT {
        log := log + [Evicted(regionKeys[0])];
        regions := Drop(regions, regionKeys[0]);
        regionKeys := regionKeys[1..];
        assert Abstract() ==
          before.(regions := Drop(before.regions, before.keys[0]), keys := before.keys[1..], log := log);
        assert log + [Cached(key, region)] == before.log + [Evicted(before.keys[0]), Cached(key, region)];
      }
      regions := regions[key := region];
      regionKeys := regionKeys + [key];
      log := log + [Cached(key, region)];
    }
  }
}
