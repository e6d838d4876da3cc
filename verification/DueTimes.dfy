/**
 The schedule arithmetic: the latest slot that is due (`latestDigestDue`), the next slot
 (`nextDeliveryAt`) and the all-weekday form (`DailySchedule.Due`). Korean time is UTC+9.
 */
module DueTimes {
  import opened Basics

  /** The Korean calendar day of an instant, counted from 1 January of year 1. */
  function LocalDay(t: Time): int {
    (t + 32_400_000_000_000) / 86_400_000_000_000
  }

  /** The instant at which hour:minute strikes on a Korean calendar day. */
  function SlotOn(day: int, hour: int, minute: int): Time {
    day * 86_400_000_000_000 + hour * 3_600_000_000_000 + minute * 60_000_000_000 - 32_400_000_000_000
  }

  /** Sunday is 0; 1 January of year 1 was a Monday. */
  function Weekday(day: int): int {
    (day + 1) % 7
  }

  predicate ValidClock(hour: int, minute: int) {
    0 <= hour <= 23 && 0 <= minute <= 59
  }

  predicate ValidConfig(hour: int, minute: int, weekdays: seq<int>) {
    && ValidClock(hour, minute)
    && |weekdays| > 0
    && forall w <- weekdays :: 0 <= w <= 6
  }

  /** A slot is the schedule's hour and minute on one of its weekdays. */
  ghost predicate IsSlot(t: Time, hour: int, minute: int, weekdays: seq<int>) {
    exists day: int :: t == SlotOn(day, hour, minute) && Weekday(day) in weekdays
  }

  /** The specification of the due search: the greatest slot at or before `now`. */
  ghost predicate IsLatestSlot(s: Time, now: Time, hour: int, minute: int, weekdays: seq<int>) {
    && IsSlot(s, hour, minute, weekdays)
    && s <= now
    && forall t :: IsSlot(t, hour, minute, weekdays) && t <= now ==> t <= s
  }

  /** The specification of the next delivery: the least slot after `now`. */
  ghost predicate IsNextSlot(s: Time, now: Time, hour: int, minute: int, weekdays: seq<int>) {
    && IsSlot(s, hour, minute, weekdays)
    && now < s
    && forall t :: IsSlot(t, hour, minute, weekdays) && now < t ==> s <= t
  }

  lemma SlotsIncrease(d: int, e: int, hour: int, minute: int)
    ensures d < e <==> SlotOn(d, hour, minute) < SlotOn(e, hour, minute)
  {
  }

  /** The slot of the instant's own day is less than a day away. */
  lemma SlotNearNow(now: Time, hour: int, minute: int)
    requires ValidClock(hour, minute)
    ensures SlotOn(LocalDay(now) - 1, hour, minute) <= now < SlotOn(LocalDay(now) + 1, hour, minute)
  {
  }

  /** Among eight consecutive days every weekday occurs. */
  lemma WeekdayWithinWeek(w: int, day: int) returns (back: nat, ahead: nat)
    requires 0 <= w <= 6
    ensures 1 <= back <= 7 && Weekday(day - back) == w
    ensures 1 <= ahead <= 7 && Weekday(day + ahead) == w
  {
    back := if (day + 1 - w) % 7 == 0 then 7 else (day + 1 - w) % 7;
    ahead := if (w - day - 1) % 7 == 0 then 7 else (w - day - 1) % 7;
  }

  /** No slot lies strictly between the latest and the next one. */
  lemma LatestAndNextAreAdjacent(a: Time, b: Time, now: Time, hour: int, minute: int, weekdays: seq<int>)
    requires IsLatestSlot(a, now, hour, minute, weekdays)
    requires IsNextSlot(b, now, hour, minute, weekdays)
    ensures a < b
    ensures forall t :: IsSlot(t, hour, minute, weekdays) ==> t <= a || b <= t
  {
  }

  lemma LatestSlotUnique(a: Time, b: Time, now: Time, hour: int, minute: int, weekdays: seq<int>)
    requires IsLatestSlot(a, now, hour, minute, weekdays)
    requires IsLatestSlot(b, now, hour, minute, weekdays)
    ensures a == b
  {
  }

  /** Day `day` has a slot that has already struck. */
  predicate Elapsed(now: Time, day: int, hour: int, minute: int, weekdays: seq<int>) {
    SlotOn(day, hour, minute) <= now && Weekday(day) in weekdays
  }

  /** Day `day` has a slot that is still to come. */
  predicate Upcoming(now: Time, day: int, hour: int, minute: int, weekdays: seq<int>) {
    now < SlotOn(day, hour, minute) && Weekday(day) in weekdays
  }

  /** The slot the backwards search settles on, starting `ago` days before today. */
  function SearchBack(now: Time, hour: int, minute: int, weekdays: seq<int>, ago: nat): Option<Time>
    decreases 8 - ago
  {
    if ago > 7 then None
    else if Elapsed(now, LocalDay(now) - ago, hour, minute, weekdays)
      then Some(SlotOn(LocalDay(now) - ago, hour, minute))
    else SearchBack(now, hour, minute, weekdays, ago + 1)
  }

  /**
   The due slot of a schedule: the latest slot, unless the schedule has already succeeded at or
   after it. An invalid schedule is never due.
   */
  function LatestDue(now: Time, lastSuccess: Option<Time>, hour: int, minute: int,
                     weekdays: seq<int>): (r: Option<Time>)
    ensures r.Some? ==> r.value <= now
    ensures r.Some? && lastSuccess.Some? ==> lastSuccess.value < r.value
  {
    if !ValidConfig(hour, minute, weekdays) then None
    else
      SearchBackFindsLatest(now, hour, minute, weekdays);
      var s := SearchBack(now, hour, minute, weekdays, 0).value;
      if lastSuccess.Some? && s <= lastSuccess.value then None else Some(s)
  }

  /** From `ago` days back on, the search returns the most recent elapsed day there is. */
  lemma {:induction false} SearchBackFirst(now: Time, hour: int, minute: int, weekdays: seq<int>, ago: nat, hit: int)
    returns (day: int)
    requires LocalDay(now) - 7 <= hit <= LocalDay(now) - ago
    requires Elapsed(now, hit, hour, minute, weekdays)
    ensures hit <= day <= LocalDay(now) - ago
    ensures SearchBack(now, hour, minute, weekdays, ago) == Some(SlotOn(day, hour, minute))
    ensures Elapsed(now, day, hour, minute, weekdays)
    ensures forall d :: day < d <= LocalDay(now) - ago ==> !Elapsed(now, d, hour, minute, weekdays)
    decreases 8 - ago
  {
    day := LocalDay(now) - ago;
    if !Elapsed(now, day, hour, minute, weekdays) {
      day := SearchBackFirst(now, hour, minute, weekdays, ago + 1, hit);
    }
  }

  /** For every valid schedule the eight-day search never misses, and finds the latest slot. */
  lemma SearchBackFindsLatest(now: Time, hour: int, minute: int, weekdays: seq<int>)
    requires ValidConfig(hour, minute, weekdays)
    ensures SearchBack(now, hour, minute, weekdays, 0).Some?
    ensures IsLatestSlot(SearchBack(now, hour, minute, weekdays, 0).value, now, hour, minute, weekdays)
  {
    var today := LocalDay(now);
    assert weekdays[0] in weekdays;
    SlotNearNow(now, hour, minute);
    var back, _ := WeekdayWithinWeek(weekdays[0], today);
    SlotsIncrease(today - 1, today - back, hour, minute);
    var day := SearchBackFirst(now, hour, minute, weekdays, 0, today - back);
    forall t | IsSlot(t, hour, minute, weekdays) && t <= now
      ensures t <= SlotOn(day, hour, minute)
    {
      var d: int :| t == SlotOn(d, hour, minute) && Weekday(d) in weekdays;
      SlotsIncrease(d, today + 1, hour, minute);
      assert Elapsed(now, d, hour, minute, weekdays);
      SlotsIncrease(day, d, hour, minute);
    }
  }

  /** `LatestDue` without reference to its search: the one latest slot, if it is after the last success. */
  lemma LatestDueCharacterised(now: Time, lastSuccess: Option<Time>, hour: int, minute: int, weekdays: seq<int>,
                               s: Time)
    requires ValidConfig(hour, minute, weekdays)
    ensures LatestDue(now, lastSuccess, hour, minute, weekdays) == Some(s)
      <==> IsLatestSlot(s, now, hour, minute, weekdays) && (lastSuccess.Some? ==> lastSuccess.value < s)
    ensures LatestDue(now, lastSuccess, hour, minute, weekdays) == None
      <==> lastSuccess.Some? && forall t :: IsSlot(t, hour, minute, weekdays) && t <= now ==> t <= lastSuccess.value
  {
    SearchBackFindsLatest(now, hour, minute, weekdays);
    var found := SearchBack(now, hour, minute, weekdays, 0).value;
    if IsLatestSlot(s, now, hour, minute, weekdays) {
      LatestSlotUnique(s, found, now, hour, minute, weekdays);
    }
  }

  method ParseWeekdays(weekdays: seq<int>) returns (ok: bool, allowed: set<int>)
    ensures ok <==> forall w <- weekdays :: 0 <= w <= 6
    ensures ok ==> allowed == set w | w in weekdays
  {
    allowed := {};
    for i := 0 to |weekdays|
      invariant forall w <- weekdays[..i] :: 0 <= w <= 6
      invariant allowed == set w | w in weekdays[..i]
    {
      if weekdays[i] < 0 || weekdays[i] > 6 {
        assert weekdays[i] in weekdays;
        return false, {};
      }
      assert weekdays[..i + 1] == weekdays[..i] + [weekdays[i]];
      allowed := allowed + {weekdays[i]};
    }
    assert weekdays[..|weekdays|] == weekdays;
    ok := true;
  }

  /** The backwards loop of the scheduler. */
  method LatestDigestDue(now: Time, lastSuccess: Option<Time>, hour: int, minute: int, weekdays: seq<int>)
    returns (r: Option<Time>)
    ensures r == LatestDue(now, lastSuccess, hour, minute, weekdays)
  {
    if hour < 0 || hour > 23 || minute < 0 || minute > 59 || |weekdays| == 0 {
      return None;
    }
    var ok, allowed := ParseWeekdays(weekdays);
    if !ok {
      return None;
    }
    var daysAgo := 0;
    while daysAgo <= 7
      invariant 0 <= daysAgo <= 8
      invariant SearchBack(now, hour, minute, weekdays, 0) == SearchBack(now, hour, minute, weekdays, daysAgo)
    {
      var date := LocalDay(now) - daysAgo;
      var candidate := SlotOn(date, hour, minute);
      if candidate > now || Weekday(date) !in allowed {
        assert !Elapsed(now, date, hour, minute, weekdays);
        daysAgo := daysAgo + 1;
        continue;
      }
      if lastSuccess.Some? && candidate <= lastSuccess.value {
        return None;
      }
      return Some(candidate);
    }
    SearchBackFindsLatest(now, hour, minute, weekdays);
    assert false;
  }

  /** The forwards loop behind the next-delivery display: it finds the least slot after `now`. */
  method NextDeliveryAt(now: Time, hour: int, minute: int, weekdays: seq<int>) returns (r: Option<Time>)
    ensures r.Some? <==> ValidConfig(hour, minute, weekdays)
    ensures r.Some? ==> IsNextSlot(r.value, now, hour, minute, weekdays)
  {
    if hour < 0 || hour > 23 || minute < 0 || minute > 59 || |weekdays| == 0 {
      return None;
    }
    var ok, allowed := ParseWeekdays(weekdays);
    if !ok {
      return None;
    }
    var offset := 0;
    while offset <= 7
      invariant 0 <= offset <= 8
      invariant forall d :: LocalDay(now) <= d < LocalDay(now) + offset ==> !Upcoming(now, d, hour, minute, weekdays)
    {
      var date := LocalDay(now) + offset;
      var candidate := SlotOn(date, hour, minute);
      if Weekday(date) in allowed && candidate > now {
        NextIsLeast(now, hour, minute, weekdays, date);
        return Some(candidate);
      }
      offset := offset + 1;
    }
    ghost var missed := UpcomingWithinWeek(now, hour, minute, weekdays);
    assert false;
  }

  lemma NextIsLeast(now: Time, hour: int, minute: int, weekdays: seq<int>, day: int)
    requires ValidConfig(hour, minute, weekdays)
    requires Upcoming(now, day, hour, minute, weekdays)
    requires forall d :: LocalDay(now) <= d < day ==> !Upcoming(now, d, hour, minute, weekdays)
    ensures IsNextSlot(SlotOn(day, hour, minute), now, hour, minute, weekdays)
  {
    forall t | IsSlot(t, hour, minute, weekdays) && now < t
      ensures SlotOn(day, hour, minute) <= t
    {
      var d: int :| t == SlotOn(d, hour, minute) && Weekday(d) in weekdays;
      SlotNearNow(now, hour, minute);
      SlotsIncrease(LocalDay(now) - 1, d, hour, minute);
      assert Upcoming(now, d, hour, minute, weekdays);
      SlotsIncrease(d, day, hour, minute);
    }
  }

  lemma UpcomingWithinWeek(now: Time, hour: int, minute: int, weekdays: seq<int>) returns (day: int)
    requires ValidConfig(hour, minute, weekdays)
    ensures LocalDay(now) <= day <= LocalDay(now) + 7
    ensures Upcoming(now, day, hour, minute, weekdays)
  {
    assert weekdays[0] in weekdays;
    var _, ahead := WeekdayWithinWeek(weekdays[0], LocalDay(now));
    SlotNearNow(now, hour, minute);
    SlotsIncrease(LocalDay(now) + ahead, LocalDay(now) + 1, hour, minute);
    day := LocalDay(now) + ahead;
  }

  /** `DailySchedule.Due`: straight-line arithmetic for a schedule that runs every day. */
  function DailyDue(now: Time, lastSuccess: Option<Time>, hour: int, minute: int): Option<Time> {
    if !ValidClock(hour, minute) then None
    else
      var today := SlotOn(LocalDay(now), hour, minute);
      var due := if now < today then SlotOn(LocalDay(now) - 1, hour, minute) else today;
      if lastSuccess.Some? && due <= lastSuccess.value then None else Some(due)
  }

  /** With all seven weekdays in any order the search and the straight-line form agree. */
  lemma DailyAgrees(now: Time, lastSuccess: Option<Time>, hour: int, minute: int, weekdays: seq<int>)
    requires forall w :: w in weekdays <==> 0 <= w <= 6
    ensures LatestDue(now, lastSuccess, hour, minute, weekdays) == DailyDue(now, lastSuccess, hour, minute)
  {
    assert 0 in weekdays;
    if ValidClock(hour, minute) {
      SlotNearNow(now, hour, minute);
      var today := LocalDay(now);
      assert Weekday(today) in weekdays && Weekday(today - 1) in weekdays;
      if SlotOn(today, hour, minute) > now {
        assert SearchBack(now, hour, minute, weekdays, 0) == SearchBack(now, hour, minute, weekdays, 1);
      }
    }
  }
}
