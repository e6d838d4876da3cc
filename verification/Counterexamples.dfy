/** Runs from the empty tables to the states in which the lease protocols disappoint. */
module Counterexamples {
  import opened Basics
  import opened ReportPaths
  import DueTimes
  import D = DigestModel
  import I = DigestInvariant
  import DigestTheorems
  import R = ReportModel
  import ReportTheorems

  // ---- a live delivery claim broken by another key ----

  /** Nine o'clock in Korea on the second day of the calendar, a Tuesday. */
  const NINE: Time := 86_400_000_000_000

  const MAIL := D.DeliveryId(0, 7, NINE)

  /** A schedule is due and its window, still without a match, is opened for one recipient. */
  const OPENING: seq<D.Action> := [D.Tick(NINE), D.NewSchedule(0), D.Open(0, NINE, 9, 0, [2], {}, {7})]

  /** The recipient is claimed under key "a", and claimed again under the free key "b". */
  const TWO_CLAIMS: seq<D.Action> := [D.DoClaim(0, MAIL, NINE, "a"), D.DoClaim(0, MAIL, NINE, "b")]

  lemma RunOne(db: D.Db, a: D.Action, rest: seq<D.Action>)
    ensures D.Run(db, [a] + rest) == D.Run(D.Step(db, a).0, rest)
  {
    hide D.Step;
    assert ([a] + rest)[1..] == rest;
  }

  lemma NineIsDue()
    ensures DueTimes.LatestDue(NINE, None, 9, 0, [2]) == Some(NINE)
  {
    assert DueTimes.LocalDay(NINE) == 1 && DueTimes.SlotOn(1, 9, 0) == NINE && DueTimes.Weekday(1) == 2;
    assert 2 in [2];
    assert DueTimes.Elapsed(NINE, 1, 9, 0, [2]);
    assert DueTimes.SearchBack(NINE, 9, 0, [2], 0) == Some(NINE);
  }

  const WINDOW := D.Window(NINE, NINE, D.WindowPending, None, {}, {7})
  const OPENED := D.Db(NINE, map[0 := D.Schedule(None, [WINDOW])], map[], 0)
  const HELD := D.Delivery("a", NINE, D.Sending, 1, NINE, 0, None)

  lemma OpenedByTicks(later: seq<D.Action>)
    ensures D.Run(D.EMPTY, OPENING + later) == D.Run(OPENED, later)
  {
    NineIsDue();
    var ticked := D.Db(NINE, map[], map[], 0);
    var scheduled := D.Db(NINE, map[0 := D.Schedule(None, [])], map[], 0);
    assert D.Step(D.EMPTY, D.Tick(NINE)).0 == ticked;
    assert D.Step(ticked, D.NewSchedule(0)).0 == scheduled;
    assert D.Snapshot({}, None, NINE) == {};
    assert [] + [WINDOW] == [WINDOW];
    assert D.Step(scheduled, OPENING[2]).0 == OPENED;
    RunOne(D.EMPTY, OPENING[0], [OPENING[1], OPENING[2]] + later);
    RunOne(ticked, OPENING[1], [OPENING[2]] + later);
    RunOne(scheduled, OPENING[2], later);
    assert OPENING + later == [OPENING[0]] + ([OPENING[1], OPENING[2]] + later);
    assert [OPENING[1], OPENING[2]] + later == [OPENING[1]] + ([OPENING[2]] + later);
  }

  /** The claim under "a" is granted with token 0 for a first attempt. */
  lemma FirstClaim()
    ensures D.Step(OPENED, D.DoClaim(0, MAIL, NINE, "a")) ==
      (OPENED.(deliveries := map[MAIL := HELD], nextToken := 1), D.Claimed(1, 0))
  {
    assert D.FindWindow([WINDOW], NINE, NINE) == Some(0);
  }

  /** The claim under "b" is not granted, but it takes the row's key. */
  lemma SecondClaim()
    ensures var held := OPENED.(deliveries := map[MAIL := HELD], nextToken := 1);
      D.Step(held, D.DoClaim(0, MAIL, NINE, "b")) == (held.(deliveries := map[MAIL := HELD.(key := "b")]), D.Unchanged)
  {
    var held := OPENED.(deliveries := map[MAIL := HELD], nextToken := 1);
    var adopted := held.(deliveries := map[MAIL := HELD.(key := "b")]);
    assert D.FindWindow([WINDOW], NINE, NINE) == Some(0);
    assert "a" != "b";
    assert D.KeyOwner(held.deliveries, "b") == None;
    assert D.AdoptKey(held, MAIL, NINE, "b") == adopted;
    assert MAIL in adopted.deliveries && adopted.deliveries[MAIL].key == "b";
    var owner := D.KeyOwner(adopted.deliveries, "b");
    assert owner.Some? && owner.value in adopted.deliveries && owner.value == MAIL;
    assert 7 in WINDOW.recipients && !D.RecipientSent(adopted, 0, WINDOW, 7)
      && !D.RecipientExhausted(adopted, 0, WINDOW, 7);
    assert D.CompleteWindow(adopted, 0, NINE, NINE) == adopted;
  }

  /**
   From the empty tables: the first claimer holds a live lease that nobody else was granted, and its
   finalisation, sent or failed, is refused.
   */
  lemma LiveClaimIsBroken(sentAt: Option<Time>)
    ensures var db := D.Run(D.EMPTY, OPENING + TWO_CLAIMS);
      && MAIL in db.deliveries && D.LeaseLive(db.deliveries[MAIL], db.clock)
      && db.deliveries[MAIL].token == 0 && db.deliveries[MAIL].attempts == 1
      && D.Finalize(db, MAIL, NINE, "a", 0, 1, sentAt) == (db, D.Rejected)
  {
    OpenedByTicks(TWO_CLAIMS);
    FirstClaim();
    SecondClaim();
    var held := OPENED.(deliveries := map[MAIL := HELD], nextToken := 1);
    var adopted := held.(deliveries := map[MAIL := HELD.(key := "b")]);
    RunOne(OPENED, TWO_CLAIMS[0], [TWO_CLAIMS[1]]);
    RunOne(held, TWO_CLAIMS[1], []);
    assert TWO_CLAIMS == [TWO_CLAIMS[0]] + [TWO_CLAIMS[1]] && [TWO_CLAIMS[1]] == [TWO_CLAIMS[1]] + [];
    assert D.Run(adopted, []) == adopted;
  }

  // ---- a match that is inserted late ----

  lemma OpenedKeepsInv()
    ensures I.Inv(OPENED)
  {
    OpenedByTicks([]);
    assert OPENING + [] == OPENING && D.Run(OPENED, []) == OPENED;
    assert I.Inv(D.EMPTY);
    I.RunKeepsInv(D.EMPTY, OPENING);
  }

  /** No later window of the schedule reaches back to nine. */
  lemma LaterWindowsStartLater(later: seq<D.Action>, i: nat)
    requires i < |DigestTheorems.WindowsOf(D.Run(OPENED, later), 0)|
    ensures var w := DigestTheorems.WindowsOf(D.Run(OPENED, later), 0)[i];
      if i == 0 then w.items == {} else w.since.Some? && NINE <= w.since.value && I.ItemsInInterval(w)
  {
    hide D.Run, I.Inv, D.Snapshot, DigestTheorems.OpenedBy, I.ItemsInInterval;
    OpenedKeepsInv();
    I.RunKeepsInv(OPENED, later);
    DigestTheorems.SnapshotsAreOfTheirOpening(OPENED, later, 0, 0);
    var db := D.Run(OPENED, later);
    var ws := DigestTheorems.WindowsOf(db, 0);
    I.ScheduleOf(db, 0);
    assert DigestTheorems.SameSnapshot(WINDOW, ws[0]);
    assert I.TileAt(ws, i);
    if i > 1 {
      I.WindowsOrdered(ws, 0, i - 1);
      assert I.TileAt(ws, i - 1);
    }
  }

  /** Whatever follows, a match created by nine that becomes visible only later is in no window, ever. */
  lemma LateMatchIsLost(later: seq<D.Action>, m: D.Match)
    requires m.createdAt <= NINE
    ensures forall w <- DigestTheorems.WindowsOf(D.Run(D.EMPTY, OPENING + later), 0) :: m !in w.items
  {
    hide D.Run, DigestTheorems.WindowsOf;
    OpenedByTicks(later);
    var ws := DigestTheorems.WindowsOf(D.Run(OPENED, later), 0);
    forall i | 0 <= i < |ws| ensures m !in ws[i].items {
      LaterWindowsStartLater(later, i);
    }
  }

  // ---- a report abandoned at its third attempt ----

  const FIRST_DUE := Due(NINE, "0001", "01", "02", "00010102-090000")

  const ITEMS: seq<Item> := [Item(1, 1, "chairs")]

  /** A manual report whose worker dies, is taken over by one that dies, and again. */
  const THREE_DEATHS: seq<R.Action> := [
    R.DoClaimManual("r", FIRST_DUE, 0, ITEMS), R.DoReclaim("r", LEASE + 1), R.DoReclaim("r", 2 * LEASE + 2)
  ]

  lemma StepOne(db: R.Db, a: R.Action, rest: seq<R.Action>)
    ensures R.Run(db, [a] + rest) == R.Run(R.Step(db, a).0, rest)
  {
    hide R.Step;
    assert ([a] + rest)[1..] == rest;
  }

  /** What a further claim leaves of the row. */
  lemma Reclaimed(db: R.Db, now: Time)
    requires "r" in db.reports && R.Reclaimable(db.reports["r"], now)
    ensures var db' := R.Step(db, R.DoReclaim("r", now)).0; var r := db.reports["r"];
      "r" in db'.reports && db'.reports["r"] == R.Again(db, r, r.attempts + 1, now, r.items)
  {
    hide Grouped;
  }

  /** From the empty tables: the report is generating at its third attempt, and nobody is left to finish it. */
  lemma AbandonedAtTheThirdAttempt()
    ensures var db := R.Run(R.Empty("t"), THREE_DEATHS);
      && "r" in db.reports && db.reports["r"].status == R.Generating && db.reports["r"].attempts == MAX_ATTEMPTS
      && !db.reports["r"].deleted
  {
    hide Grouped, Placeholder;
    var s0 := R.Empty("t");
    var s1 := R.Step(s0, THREE_DEATHS[0]).0;
    assert s1.reports["r"] == R.Fresh(s0, "r", Manual, FIRST_DUE, 0, ITEMS);
    var s2 := R.Step(s1, THREE_DEATHS[1]).0;
    Reclaimed(s1, LEASE + 1);
    var s3 := R.Step(s2, THREE_DEATHS[2]).0;
    Reclaimed(s2, 2 * LEASE + 2);
    StepOne(s0, THREE_DEATHS[0], THREE_DEATHS[1..]);
    StepOne(s1, THREE_DEATHS[1], THREE_DEATHS[2..]);
    StepOne(s2, THREE_DEATHS[2], []);
    assert THREE_DEATHS == [THREE_DEATHS[0]] + THREE_DEATHS[1..]
      && THREE_DEATHS[1..] == [THREE_DEATHS[1]] + THREE_DEATHS[2..];
    assert THREE_DEATHS[2..] == [THREE_DEATHS[2]] + [];
    assert R.Run(s3, []) == s3;
  }

  /** And it stays so in every later state, unless the dead third worker comes back to settle it. */
  lemma AbandonedForEver(later: seq<R.Action>, now: Time, removal: R.Removal)
    requires "r" in R.Run(R.Empty("t"), THREE_DEATHS).reports
    requires forall a <- later ::
      ReportTheorems.Settles(a) != Some(("r", R.Run(R.Empty("t"), THREE_DEATHS).reports["r"].token))
    ensures var db := R.Run(R.Run(R.Empty("t"), THREE_DEATHS), later);
      && "r" in db.reports && db.reports["r"].status == R.Generating
      && R.Reclaim(db, "r", now).1 == R.Skipped && R.Retry(db, "r", now).1 == R.Skipped
      && R.Delete(db, "r", removal).1 == R.Refused
  {
    hide R.Run;
    AbandonedAtTheThirdAttempt();
    ReportTheorems.Reachable("t", THREE_DEATHS);
    ReportTheorems.ThirdAttemptWaitsForItsHolder(R.Run(R.Empty("t"), THREE_DEATHS), later, "r", now, removal);
  }
}
