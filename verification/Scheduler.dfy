/** The scheduler's tick: when collections start, how they back off, and when reports run. */
module Scheduler {
  import opened Basics

  const HALF_HOUR: int := 30 * MINUTE

  /** `next` is nextCollection; 0 is Go's zero time, which means that none has been planned. */
  datatype State = State(next: Time, failures: nat)

  /** A tick at `now`; if it collects, whether that succeeds and what the clock reads afterwards. */
  datatype TickEvent = TickEvent(now: Time, succeeds: bool, clock: Time)

  /** A collection that ran: its start, its end, and the consecutive failures it ends with. */
  datatype Collection = Collection(start: Time, end: Time, failures: nat)

  function Doubled(k: nat): int {
    if k == 0 then 1 else 2 * Doubled(k - 1)
  }

  /** min(30, 2^(k-1)) minutes after the k-th consecutive failure. */
  function RetryDelay(failures: nat): int {
    var minutes := Doubled(if failures == 0 then 0 else failures - 1);
    if minutes > 30 then HALF_HOUR else minutes * MINUTE
  }

  lemma {:induction false} DoubledGrows(j: nat, k: nat)
    requires j <= k
    ensures 1 <= Doubled(j) <= Doubled(k)
    decreases k
  {
    if j < k {
      DoubledGrows(j, k - 1);
    } else if k > 0 {
      DoubledGrows(k - 1, k - 1);
    }
  }

  /** The delays never shrink with more failures, and stay between one minute and half an hour. */
  lemma RetryDelayGrows(j: nat, k: nat)
    requires j <= k
    ensures MINUTE <= RetryDelay(j) <= RetryDelay(k) <= HALF_HOUR
  {
    DoubledGrows(if j == 0 then 0 else j - 1, if k == 0 then 0 else k - 1);
    DoubledGrows(0, if j == 0 then 0 else j - 1);
  }

  /** The doubling loop. */
  method CollectionRetryDelay(failures: nat) returns (delay: int)
    ensures delay == RetryDelay(failures)
  {
    var attempt := 1;
    delay := MINUTE;
    while attempt < failures && delay < HALF_HOUR
      invariant 1 <= attempt && (failures > 0 ==> attempt <= failures)
      invariant failures == 0 ==> attempt == 1
      invariant delay == Doubled(attempt - 1) * MINUTE
      decreases failures - attempt
    {
      delay := delay * 2;
      attempt := attempt + 1;
    }
    if failures > 0 {
      DoubledGrows(attempt - 1, failures - 1);
    }
    if delay > HALF_HOUR {
      delay := HALF_HOUR;
    }
  }

  function Later(a: Time, b: Time): Time {
    if a < b then b else a
  }

  predicate Collects(s: State, now: Time) {
    s.next == 0 || now >= s.next
  }

  function After(s: State, every: int, t: TickEvent): State {
    if !Collects(s, t.now) then s
    else if t.succeeds then State(Later(t.clock, t.now) + every, 0)
    else State(Later(t.clock, t.now) + RetryDelay(s.failures + 1), s.failures + 1)
  }

  /** The report job runs once in every tick, at this time. */
  function ReportAt(s: State, t: TickEvent): Time {
    if Collects(s, t.now) then Later(t.clock, t.now) else t.now
  }

  /** The collections of a sequence of ticks, in order. */
  function Collections(s: State, every: int, ticks: seq<TickEvent>): seq<Collection>
    decreases |ticks|
  {
    if ticks == [] then []
    else
      var next := After(s, every, ticks[0]);
      (if Collects(s, ticks[0].now)
       then [Collection(ticks[0].now, Later(ticks[0].clock, ticks[0].now), next.failures)]
       else [])
      + Collections(next, every, ticks[1..])
  }

  /** How long after a collection the next one has to wait. */
  function Wait(every: int, c: Collection): int {
    if c.failures == 0 then every else RetryDelay(c.failures)
  }

  /** The consecutive failures that a collection ends with count up by one, or start over. */
  ghost predicate CountsOn(before: nat, c: Collection) {
    c.failures == 0 || c.failures == before + 1
  }

  /** The time that a collection plans for the next one. */
  function Plan(every: int, c: Collection): Time {
    c.end + Wait(every, c)
  }

  /** The collections cs follow each other properly after a plan for `next` with this many failures. */
  ghost predicate Spaced(cs: seq<Collection>, every: int, next: Time, failures: nat) {
    && (forall i :: 0 <= i < |cs| ==> cs[i].start <= cs[i].end)
    && (cs != [] ==> (cs[0].start >= next || next == 0) && CountsOn(failures, cs[0]))
    && (forall i :: 0 < i < |cs| ==> Follows(cs, every, i))
  }

  ghost predicate Follows(cs: seq<Collection>, every: int, i: int)
    requires 0 < i < |cs|
  {
    && (cs[i].start >= Plan(every, cs[i - 1]) || Plan(every, cs[i - 1]) == 0)
    && CountsOn(cs[i - 1].failures, cs[i])
  }

  lemma Prepend(c: Collection, rest: seq<Collection>, every: int, next: Time, failures: nat)
    requires c.start <= c.end && (c.start >= next || next == 0) && CountsOn(failures, c)
    requires Spaced(rest, every, Plan(every, c), c.failures)
    ensures Spaced([c] + rest, every, next, failures)
  {
    hide Plan, CountsOn;
    var cs := [c] + rest;
    forall i | 0 < i < |cs| ensures Follows(cs, every, i) {
      if i > 1 {
        assert Follows(rest, every, i - 1);
      }
    }
  }

  /** What a collecting tick does to the plan. */
  lemma CollectingTick(s: State, every: int, t: TickEvent)
    requires Collects(s, t.now)
    ensures var next := After(s, every, t); var c := Collection(t.now, Later(t.clock, t.now), next.failures);
      next.next == Plan(every, c) && c.start <= c.end && CountsOn(s.failures, c)
  {
    hide RetryDelay;
  }

  lemma {:induction false} CollectionsAreSpaced(s: State, every: int, ticks: seq<TickEvent>)
    ensures Spaced(Collections(s, every, ticks), every, s.next, s.failures)
    decreases |ticks|
  {
    if ticks != [] {
      var t := ticks[0];
      hide Spaced, After, Plan, CountsOn;
      if Collects(s, t.now) {
        var next := After(s, every, t);
        var c := Collection(t.now, Later(t.clock, t.now), next.failures);
        CollectingTick(s, every, t);
        CollectionsAreSpaced(next, every, ticks[1..]);
        Prepend(c, Collections(next, every, ticks[1..]), every, s.next, s.failures);
      } else {
        SkippedTick(s, every, t);
        CollectionsAreSpaced(s, every, ticks[1..]);
        assert Collections(s, every, ticks) == Collections(s, every, ticks[1..]);
      }
    }
  }

  lemma SkippedTick(s: State, every: int, t: TickEvent)
    requires !Collects(s, t.now)
    ensures After(s, every, t) == s
  {
  }

  const IDLE := State(0, 0)

  /**
   Whatever the ticks and clock readings, even backward ones, collections start strictly later than
   each other: at least `every` after a success ends, at least min(30, 2^(k-1)) minutes after a k-th
   failure ends. All that is asked is that none of them plans the next for exactly Go's zero time.
   */
  lemma StartsIncrease(every: int, ticks: seq<TickEvent>, i: nat, j: nat)
    requires every > 0 && i < j < |Collections(IDLE, every, ticks)|
    requires forall k :: i <= k < j ==> Plan(every, Collections(IDLE, every, ticks)[k]) != 0
    ensures var cs := Collections(IDLE, every, ticks);
      cs[i].start <= cs[i].end < cs[j].start && cs[j].start >= cs[i].end + Wait(every, cs[i])
  {
    CollectionsAreSpaced(IDLE, every, ticks);
    SpacedInOrder(Collections(IDLE, every, ticks), every, 0, 0, i, j);
  }

  lemma {:induction false} SpacedInOrder(cs: seq<Collection>, every: int, next: Time, failures: nat, i: nat, j: nat)
    requires every > 0 && i < j < |cs| && Spaced(cs, every, next, failures)
    requires forall k :: i <= k < j ==> Plan(every, cs[k]) != 0
    ensures cs[i].end < cs[j].start && cs[j].start >= cs[i].end + Wait(every, cs[i])
    decreases j
  {
    hide RetryDelay;
    RetryDelayGrows(0, cs[j - 1].failures);
    assert Follows(cs, every, j) && Plan(every, cs[j - 1]) != 0;
    if i < j - 1 {
      SpacedInOrder(cs, every, next, failures, i, j - 1);
    }
  }

  /** No tick after the zero time plans for it, so for any real clock the order holds without a condition. */
  lemma {:induction false} RealTicksPlanAhead(s: State, every: int, ticks: seq<TickEvent>)
    requires every > 0 && forall t <- ticks :: t.now >= 0
    ensures forall c <- Collections(s, every, ticks) :: Plan(every, c) > 0
    decreases |ticks|
  {
    if ticks != [] {
      assert ticks[0] in ticks;
      RetryDelayGrows(0, After(s, every, ticks[0]).failures);
      RealTicksPlanAhead(After(s, every, ticks[0]), every, ticks[1..]);
    }
  }

  /** Ticks before Go's zero time can break this: a plan for exactly that instant reads as no plan. */
  lemma PlanForTheZeroTimeIsForgotten()
    ensures var ticks := [TickEvent(-MINUTE, true, -MINUTE), TickEvent(-2 * MINUTE, true, 0)];
      var cs := Collections(IDLE, MINUTE, ticks);
      |cs| == 2 && cs[1].start < cs[0].start
  {
    var a, b := TickEvent(-MINUTE, true, -MINUTE), TickEvent(-2 * MINUTE, true, 0);
    assert [a, b][1..] == [b] && [b][1..] == [];
    assert After(IDLE, MINUTE, a) == State(0, 0);
    assert Collections(State(0, 0), MINUTE, [b]) ==
      [Collection(-2 * MINUTE, 0, 0)] + Collections(After(State(0, 0), MINUTE, b), MINUTE, []);
    assert Collections(IDLE, MINUTE, [a, b]) ==
      [Collection(-MINUTE, -MINUTE, 0)] + Collections(State(0, 0), MINUTE, [b]);
  }

  /** A later tick collects exactly when the wait is over, or when the plan falls on the zero time. */
  lemma TickCollectsExactly(s: State, every: int, t: TickEvent, now: Time)
    requires Collects(s, t.now)
    ensures var c := Collection(t.now, Later(t.clock, t.now), After(s, every, t).failures);
      Collects(After(s, every, t), now) <==> now >= Plan(every, c) || Plan(every, c) == 0
  {
  }

  /**
   A success plans the next collection at the set interval after its end and forgets earlier failures; a
   failure counts, and plans it after a delay of a minute, doubled by each failure before it up to half an
   hour. Reports run at the end of the tick's collection, or at the tick when there is none.
   */
  lemma TickPlansByOutcome(s: State, every: int, t: TickEvent)
    ensures var next := After(s, every, t); var end := if t.clock < t.now then t.now else t.clock;
      var collects := s.next == 0 || s.next <= t.now;
      && (!collects ==> next == s && ReportAt(s, t) == t.now)
      && (collects ==> ReportAt(s, t) == end)
      && (collects && t.succeeds ==> next.failures == 0 && next.next == end + every)
      && (collects && !t.succeeds ==> next.failures == s.failures + 1 && next.next == end + RetryDelay(next.failures))
      && RetryDelay(1) == MINUTE
      && RetryDelay(s.failures + 2) == if RetryDelay(s.failures + 1) * 2 > HALF_HOUR then HALF_HOUR
                                       else RetryDelay(s.failures + 1) * 2
  {
    DoubledGrows(0, s.failures);
  }

  class Scheduler {
    const collectEvery: int
    var nextCollection: Time
    var collectionFailures: nat

    function Current(): State
      reads this
    {
      State(nextCollection, collectionFailures)
    }

    constructor (every: int)
      ensures collectEvery == (if every <= 0 then 60 * MINUTE else every) && Current() == IDLE
    {
      collectEvery := if every <= 0 then 60 * MINUTE else every;
      nextCollection, collectionFailures := 0, 0;
    }

    /** One tick; the outcome of the collection and the clock after it are given. */
    method Tick(now: Time, succeeds: bool, clock: Time) returns (collected: bool, reportAt: Time)
      requires collectEvery > 0
      modifies this
      ensures var t := TickEvent(now, succeeds, clock);
        && Current() == After(old(Current()), collectEvery, t)
        && collected == Collects(old(Current()), now)
        && reportAt == ReportAt(old(Current()), t) && reportAt >= now
    {
      reportAt := now;
      collected := nextCollection == 0 || now >= nextCollection;
      if collected {
        var finishedAt := clock;
        if finishedAt < now {
          finishedAt := now;
        }
        reportAt := finishedAt;
        if !succeeds {
          collectionFailures := collectionFailures + 1;
          var delay := CollectionRetryDelay(collectionFailures);
          nextCollection := finishedAt + delay;
        } else {
          nextCollection := finishedAt + collectEvery;
          collectionFailures := 0;
        }
      }
    }
  }
}
