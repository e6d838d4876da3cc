/**
 One schedule under the report job: which window a tick selects, what it claims, and how the window's
 report decides whether the schedule can go on. The mail flow may have opened and closed windows
 before; `MailOpen` and `MailClose` stand for it.
 */
module ReportFlow {
  import opened Basics
  import opened DigestModel
  import opened DigestInvariant
  import DueTimes
  import R = ReportModel

  /** A row of reports, by the due time of its window; `start` is window_start_at. */
  datatype Rep = Rep(
    status: R.ReportStatus, attempts: nat, token: nat, claimedAt: Time, deleted: bool, start: Option<Time>)

  datatype Flow = Flow(sc: Schedule, reports: map<Time, Rep>, nextToken: nat)

  /** `Broken` is the violated check of the report's window columns; it rolls the whole tick back. */
  datatype Outcome = Idle | Skipped | Granted(due: Time, token: nat) | Done | Broken | Refused

  // ---- selecting ----

  predicate Reclaimable(r: Rep, now: Time) {
    R.Takeable(r.status, r.attempts, r.claimedAt, r.deleted, now)
  }

  /** A completed window with items whose report is missing or may be claimed again. */
  predicate Unreported(reports: map<Time, Rep>, w: Window, dbNow: Time) {
    && w.status == WindowCompleted && w.items != {}
    && (w.due !in reports || Reclaimable(reports[w.due], dbNow))
  }

  /** The last such window of the first n. */
  function NewestUnreported(reports: map<Time, Rep>, ws: seq<Window>, dbNow: Time): (r: Option<nat>)
    ensures r.Some? ==> r.value < |ws| && Unreported(reports, ws[r.value], dbNow)
    ensures r.Some? ==> forall j :: r.value < j < |ws| ==> !Unreported(reports, ws[j], dbNow)
    ensures r.None? ==> forall j :: 0 <= j < |ws| ==> !Unreported(reports, ws[j], dbNow)
  {
    if ws == [] then None
    else if Unreported(reports, ws[|ws| - 1], dbNow) then Some(|ws| - 1)
    else NewestUnreported(reports, ws[..|ws| - 1], dbNow)
  }

  datatype Selection = Nothing | Existing(i: nat) | Fresh(due: Time)

  /** loadReportSchedules and selectDigestWindow. */
  function Select(f: Flow, now: Time, dbNow: Time, hour: int, minute: int, weekdays: seq<int>): (r: Selection)
    ensures r.Existing? ==> r.i < |f.sc.windows|
  {
    var older := NewestUnreported(f.reports, f.sc.windows, dbNow);
    var found := if older.Some? then older else FindPending(f.sc.windows);
    match found
    case Some(i) => if f.sc.windows[i].end < f.sc.windows[i].due then Nothing else Existing(i)
    case None =>
      match DueTimes.LatestDue(now, f.sc.lastSuccess, hour, minute, weekdays)
      case None => Nothing
      case Some(due) => Fresh(due)
  }

  // ---- claiming ----

  function CloseAt(sc: Schedule, i: nat, status: WindowStatus): Schedule
    requires i < |sc.windows|
  {
    Schedule(Some(Greatest(sc.lastSuccess, sc.windows[i].end)), sc.windows[i := sc.windows[i].(status := status)])
  }

  predicate StartsTooLate(f: Flow, w: Window) {
    f.sc.lastSuccess.Some? && f.sc.lastSuccess.value > w.end
  }

  /** claimScheduledReport for window i. The check is made before the conflict is looked for. */
  function ClaimFor(f: Flow, i: nat, now: Time): (Flow, Outcome)
    requires i < |f.sc.windows|
  {
    var w := f.sc.windows[i];
    if w.items == {} || (w.due in f.reports && f.reports[w.due].deleted) then
      match w.status
      case WindowFailed => (f, Refused)
      case WindowCompleted => (f, Done)
      case WindowPending => (f.(sc := CloseAt(f.sc, i, WindowCompleted)), Done)
    else if StartsTooLate(f, w) then (f, Broken)
    else if w.due !in f.reports then
      var r := Rep(R.Generating, 1, f.nextToken, now, false, f.sc.lastSuccess);
      (f.(reports := f.reports[w.due := r], nextToken := f.nextToken + 1),
       Granted(w.due, f.nextToken))
    else if Reclaimable(f.reports[w.due], now) then
      var r := f.reports[w.due];
      var r' := r.(status := R.Generating, attempts := r.attempts + 1, token := f.nextToken, claimedAt := now);
      (f.(reports := f.reports[w.due := r'], nextToken := f.nextToken + 1), Granted(w.due, f.nextToken))
    else (f, Skipped)
  }

  function Opened(f: Flow, due: Time, now: Time, visible: set<Match>, recipients: set<Id>): Flow {
    var w := Window(due, now, WindowPending, f.sc.lastSuccess, Snapshot(visible, f.sc.lastSuccess, now), recipients);
    f.(sc := f.sc.(windows := f.sc.windows + [w]))
  }

  /** ClaimDueReports, for this schedule: `now` is the process's clock and `dbNow` the database's. */
  function Tick(f: Flow, now: Time, dbNow: Time, hour: int, minute: int, weekdays: seq<int>,
                visible: set<Match>, recipients: set<Id>): (Flow, Outcome) {
    match Select(f, now, dbNow, hour, minute, weekdays)
    case Nothing => (f, Idle)
    case Existing(i) => ClaimFor(f, i, now)
    case Fresh(due) =>
      var (f', outcome) := ClaimFor(Opened(f, due, now, visible, recipients), |f.sc.windows|, now);
      if outcome == Broken || outcome == Refused then (f, outcome) else (f', outcome)
  }

  // ---- working, and the operator ----

  predicate Holds(f: Flow, due: Time, token: nat) {
    due in f.reports && f.reports[due].status == R.Generating && f.reports[due].token == token
  }

  /** finalizeReport with its window update. */
  function Finalize(f: Flow, due: Time, token: nat): (Flow, Outcome) {
    var i := FindDue(f.sc.windows, due);
    if !Holds(f, due, token) || i.None? || f.sc.windows[i.value].status == WindowFailed then (f, Refused)
    else
      var r := f.reports[due].(status := R.Generated);
      (f.(reports := f.reports[due := r], sc := CloseAt(f.sc, i.value, WindowCompleted)), Done)
  }

  function Fail(f: Flow, due: Time, token: nat): (Flow, Outcome) {
    if !Holds(f, due, token) then (f, Refused)
    else (f.(reports := f.reports[due := f.reports[due].(status := R.Failed)]), Idle)
  }

  function Reclaim(f: Flow, due: Time, dbNow: Time): (Flow, Outcome) {
    if due !in f.reports || !Reclaimable(f.reports[due], dbNow) then (f, Skipped)
    else
      var r := f.reports[due];
      var r' := r.(status := R.Generating, attempts := r.attempts + 1, token := f.nextToken, claimedAt := dbNow);
      (f.(reports := f.reports[due := r'], nextToken := f.nextToken + 1), Granted(due, f.nextToken))
  }

  function Retry(f: Flow, due: Time, now: Time): (Flow, Outcome) {
    if due !in f.reports || f.reports[due].deleted || f.reports[due].status != R.Failed then (f, Skipped)
    else
      var r' := f.reports[due].(status := R.Generating, attempts := 1, token := f.nextToken, claimedAt := now);
      (f.(reports := f.reports[due := r'], nextToken := f.nextToken + 1), Granted(due, f.nextToken))
  }

  function Delete(f: Flow, due: Time): (Flow, Outcome) {
    if due !in f.reports || f.reports[due].status == R.Generating then (f, Refused)
    else (f.(reports := f.reports[due := f.reports[due].(deleted := true)]), Done)
  }

  // ---- runs ----

  datatype Action =
    | DoTick(now: Time, dbNow: Time, hour: int, minute: int, weekdays: seq<int>, visible: set<Match>,
             recipients: set<Id>)
    | DoFinalize(due: Time, token: nat)
    | DoFail(due: Time, token: nat)
    | DoReclaim(due: Time, dbNow: Time)
    | DoRetry(due: Time, now: Time)
    | DoDelete(due: Time)
    | MailOpen(due: Time, now: Time, visible: set<Match>, recipients: set<Id>)
    | MailClose(i: nat, status: WindowStatus)

  function Step(f: Flow, a: Action): (Flow, Outcome) {
    match a
    case DoTick(now, dbNow, hour, minute, weekdays, visible, recipients) =>
      Tick(f, now, dbNow, hour, minute, weekdays, visible, recipients)
    case DoFinalize(due, token) => Finalize(f, due, token)
    case DoFail(due, token) => Fail(f, due, token)
    case DoReclaim(due, dbNow) => Reclaim(f, due, dbNow)
    case DoRetry(due, now) => Retry(f, due, now)
    case DoDelete(due) => Delete(f, due)
    case MailOpen(due, now, visible, recipients) =>
      if FindPending(f.sc.windows).Some? || due > now || !After(f.sc.lastSuccess, due) then (f, Refused)
      else (Opened(f, due, now, visible, recipients), Idle)
    case MailClose(i, status) =>
      if i >= |f.sc.windows| || f.sc.windows[i].status != WindowPending || status == WindowPending then (f, Refused)
      else (f.(sc := CloseAt(f.sc, i, status)), Done)
  }

  function Run(f: Flow, run: seq<Action>): Flow
    decreases |run|
  {
    if run == [] then f else Run(Step(f, run[0]).0, run[1..])
  }

  /** The report job and its operators alone. */
  predicate ReportsOnly(a: Action) {
    !a.MailOpen? && !a.MailClose?
  }

  const EMPTY := Flow(Schedule(None, []), map[], 0)

  // ---- the invariant ----

  /** Every report is of a window, has one to three attempts, and passes the check of its window columns. */
  ghost predicate RepInv(f: Flow, due: Time, r: Rep) {
    && FindDue(f.sc.windows, due).Some?
    && 1 <= r.attempts <= MAX_ATTEMPTS && r.token < f.nextToken
    && (r.deleted ==> r.status != R.Generating)
    && (r.start.Some? ==> r.start.value <= f.sc.windows[FindDue(f.sc.windows, due).value].end)
  }

  ghost predicate Inv(f: Flow) {
    ScheduleInv(f.sc) && forall due <- f.reports :: RepInv(f, due, f.reports[due])
  }

  lemma FindsDue(ws: seq<Window>, i: nat)
    requires WindowsTile(ws) && i < |ws|
    ensures FindDue(ws, ws[i].due) == Some(i)
  {
    DueIsUnique(ws, FindDue(ws, ws[i].due).value, i);
  }

  /** Replacing the schedule's windows by ones of the same times, with perhaps one more. */
  lemma MoreWindows(f: Flow, sc: Schedule)
    requires Inv(f) && ScheduleInv(sc) && |f.sc.windows| <= |sc.windows|
    requires forall i :: 0 <= i < |f.sc.windows| ==>
      sc.windows[i].due == f.sc.windows[i].due && sc.windows[i].end == f.sc.windows[i].end
    ensures Inv(f.(sc := sc))
  {
    forall due | due in f.reports ensures RepInv(f.(sc := sc), due, f.reports[due]) {
      assert RepInv(f, due, f.reports[due]);
      var i := FindDue(f.sc.windows, due).value;
      FindsDue(sc.windows, i);
    }
  }

  lemma CloseKeepsInv(f: Flow, i: nat, status: WindowStatus)
    requires Inv(f) && i < |f.sc.windows| && status != WindowPending
    ensures Inv(f.(sc := CloseAt(f.sc, i, status)))
  {
    CloseKeepsSchedule(f.sc, i, status);
    MoreWindows(f, CloseAt(f.sc, i, status));
  }

  lemma OpenKeepsInv(f: Flow, due: Time, now: Time, visible: set<Match>, recipients: set<Id>)
    requires Inv(f) && FindPending(f.sc.windows).None? && due <= now && After(f.sc.lastSuccess, due)
    ensures Inv(Opened(f, due, now, visible, recipients))
  {
    var f' := Opened(f, due, now, visible, recipients);
    OpenKeepsSchedule(f.sc, f'.sc.windows[|f.sc.windows|]);
    MoreWindows(f, f'.sc);
  }

  lemma PutKeepsInv(f: Flow, due: Time, r: Rep, nextToken: nat)
    requires Inv(f) && f.nextToken <= nextToken && RepInv(f.(nextToken := nextToken), due, r)
    ensures Inv(f.(reports := f.reports[due := r], nextToken := nextToken))
  {
    var f' := f.(reports := f.reports[due := r], nextToken := nextToken);
    forall d | d in f'.reports ensures RepInv(f', d, f'.reports[d]) {
      assert d != due ==> RepInv(f, d, f.reports[d]);
    }
  }

  lemma ClaimKeepsInv(f: Flow, i: nat, now: Time)
    requires Inv(f) && i < |f.sc.windows|
    ensures Inv(ClaimFor(f, i, now).0)
  {
    hide Inv;
    var w := f.sc.windows[i];
    var (f', outcome) := ClaimFor(f, i, now);
    InvParts(f);
    FindsDue(f.sc.windows, i);
    if outcome.Done? && w.status == WindowPending {
      CloseKeepsInv(f, i, WindowCompleted);
    } else if outcome.Granted? {
      PutKeepsInv(f, w.due, f'.reports[w.due], f.nextToken + 1);
    }
  }

  lemma InvParts(f: Flow)
    requires Inv(f)
    ensures ScheduleInv(f.sc) && WindowsTile(f.sc.windows) && forall due <- f.reports :: RepInv(f, due, f.reports[due])
  {
  }

  lemma TickKeepsInv(f: Flow, a: Action)
    requires Inv(f) && a.DoTick?
    ensures Inv(Step(f, a).0)
  {
    hide Inv, ClaimFor;
    match Select(f, a.now, a.dbNow, a.hour, a.minute, a.weekdays)
    case Nothing =>
    case Existing(i) => ClaimKeepsInv(f, i, a.now);
    case Fresh(due) =>
      OpenKeepsInv(f, due, a.now, a.visible, a.recipients);
      ClaimKeepsInv(Opened(f, due, a.now, a.visible, a.recipients), |f.sc.windows|, a.now);
  }

  lemma StepKeepsInv(f: Flow, a: Action)
    requires Inv(f)
    ensures Inv(Step(f, a).0)
  {
    hide Inv;
    InvParts(f);
    match a
    case DoTick(_, _, _, _, _, _, _) => TickKeepsInv(f, a);
    case DoFinalize(due, token) =>
      if Finalize(f, due, token).1 == Done {
        var done := f.(reports := f.reports[due := f.reports[due].(status := R.Generated)]);
        PutKeepsInv(f, due, done.reports[due], f.nextToken);
        CloseKeepsInv(done, FindDue(f.sc.windows, due).value, WindowCompleted);
      }
    case DoFail(due, token) =>
      if Holds(f, due, token) {
        PutKeepsInv(f, due, f.reports[due].(status := R.Failed), f.nextToken);
      }
    case DoReclaim(due, dbNow) =>
      if due in f.reports && Reclaimable(f.reports[due], dbNow) {
        PutKeepsInv(f, due, Reclaim(f, due, dbNow).0.reports[due], f.nextToken + 1);
      }
    case DoRetry(due, now) =>
      if Retry(f, due, now).1.Granted? {
        PutKeepsInv(f, due, Retry(f, due, now).0.reports[due], f.nextToken + 1);
      }
    case DoDelete(due) =>
      if due in f.reports && f.reports[due].status != R.Generating {
        PutKeepsInv(f, due, f.reports[due].(deleted := true), f.nextToken);
      }
    case MailOpen(due, now, visible, recipients) =>
      if Step(f, a).1 == Idle {
        OpenKeepsInv(f, due, now, visible, recipients);
      }
    case MailClose(i, status) =>
      if Step(f, a).1 == Done {
        CloseKeepsInv(f, i, status);
      }
  }

  lemma {:induction false} RunKeepsInv(f: Flow, run: seq<Action>)
    requires Inv(f)
    ensures Inv(Run(f, run))
    decreases |run|
  {
    if run != [] {
      hide Inv, Step;
      StepKeepsInv(f, run[0]);
      RunKeepsInv(Step(f, run[0]).0, run[1..]);
    }
  }

  // ---- the check of the window columns ----

  /**
   A tick breaks exactly when it selects a completed window that has items and a later window has been
   closed since: the start taken from the last success is then after the window's own end.
   */
  lemma TickBreaksExactly(f: Flow, a: Action)
    requires Inv(f) && a.DoTick?
    ensures var older := NewestUnreported(f.reports, f.sc.windows, a.dbNow);
      Step(f, a).1 == Broken <==>
        older.Some? && exists j :: older.value < j < |f.sc.windows| && f.sc.windows[j].status != WindowPending
    ensures Step(f, a).1 == Broken ==> Step(f, a).0 == f
  {
    var ws := f.sc.windows;
    var older := NewestUnreported(f.reports, ws, a.dbNow);
    if older.Some? {
      EndsBeforeLastSuccess(f.sc, older.value);
      assert TileAt(ws, older.value);
    } else {
      var pending := FindPending(ws);
      if pending.Some? {
        PendingIsLast(ws, pending.value);
        EndsBeforeLastSuccess(f.sc, pending.value);
        assert TileAt(ws, pending.value);
        if |ws| > 1 {
          assert TileAt(ws, |ws| - 2);
        }
      }
    }
  }

  /** A window ends before the last success exactly when a later window is closed. */
  lemma EndsBeforeLastSuccess(sc: Schedule, i: nat)
    requires ScheduleInv(sc) && i < |sc.windows|
    ensures (sc.lastSuccess.Some? && sc.lastSuccess.value > sc.windows[i].end) <==>
      exists j :: i < j < |sc.windows| && sc.windows[j].status != WindowPending
  {
    var ws := sc.windows;
    var last := |ws| - 1;
    var top := if ws[last].status == WindowPending then last - 1 else last;
    assert TileAt(ws, last) && TileAt(ws, i);
    if top >= 0 {
      assert TileAt(ws, top);
    }
    if top > i {
      WindowsOrdered(ws, i, top);
    } else if 0 <= top < i {
      WindowsOrdered(ws, top, i);
    }
    assert forall j :: i < j < |ws| && ws[j].status != WindowPending ==> j <= top;
  }

  /** No tick selects this window as completed but unreported, at any time. */
  predicate NeverUnreported(reports: map<Time, Rep>, w: Window) {
    w.status == WindowCompleted && w.items != {} ==>
      w.due in reports
      && (reports[w.due].deleted || reports[w.due].attempts >= MAX_ATTEMPTS || reports[w.due].status == R.Generated)
  }

  /** A completed window without a report, a later one closed, and no later one left to report. */
  predicate Wedged(f: Flow, i: nat) {
    && i < |f.sc.windows|
    && f.sc.windows[i].status == WindowCompleted && f.sc.windows[i].items != {} && f.sc.windows[i].due !in f.reports
    && (exists j :: i < j < |f.sc.windows| && f.sc.windows[j].status != WindowPending)
    && (forall k :: i < k < |f.sc.windows| ==> NeverUnreported(f.reports, f.sc.windows[k]))
  }

  /** From there on every tick breaks and changes nothing: this schedule's reports are claimed no more. */
  lemma {:induction false} WedgedTicksBreak(f: Flow, i: nat, ticks: seq<Action>)
    requires Inv(f) && Wedged(f, i) && forall a <- ticks :: a.DoTick?
    ensures Run(f, ticks) == f
    ensures forall a <- ticks :: Step(f, a) == (f, Broken)
    decreases |ticks|
  {
    if ticks != [] {
      hide Inv, Step;
      var a := ticks[0];
      assert a in ticks;
      var older := NewestUnreported(f.reports, f.sc.windows, a.dbNow);
      assert Unreported(f.reports, f.sc.windows[i], a.dbNow);
      assert older == Some(i) by {
        assert older.Some? && older.value >= i;
        assert older.value > i ==> NeverUnreported(f.reports, f.sc.windows[older.value]);
      }
      TickBreaksExactly(f, a);
      WedgedTicksBreak(f, i, ticks[1..]);
      assert ticks == [a] + ticks[1..];
    }
  }

  /** What keeps the report job alone from getting there: each window it completed has its report, or no items. */
  ghost predicate Reported(f: Flow) {
    forall i :: 0 <= i < |f.sc.windows| ==> ReportedAt(f, f.sc.windows[i])
  }

  ghost predicate ReportedAt(f: Flow, w: Window) {
    && w.status != WindowFailed
    && (w.status == WindowCompleted && w.items != {} ==>
          w.due in f.reports && (f.reports[w.due].status == R.Generated || f.reports[w.due].deleted))
  }

  lemma NothingUnreported(f: Flow, dbNow: Time)
    requires Reported(f)
    ensures NewestUnreported(f.reports, f.sc.windows, dbNow).None?
  {
    forall i | 0 <= i < |f.sc.windows| ensures !Unreported(f.reports, f.sc.windows[i], dbNow) {
      assert ReportedAt(f, f.sc.windows[i]);
    }
  }

  lemma ClaimKeepsReported(f: Flow, i: nat, now: Time)
    requires Inv(f) && Reported(f) && i < |f.sc.windows|
    ensures Reported(ClaimFor(f, i, now).0)
  {
    var f' := ClaimFor(f, i, now).0;
    forall k | 0 <= k < |f'.sc.windows| ensures ReportedAt(f', f'.sc.windows[k]) {
      assert ReportedAt(f, f.sc.windows[k]);
      if f.sc.windows[k].due == f.sc.windows[i].due {
        DueIsUnique(f.sc.windows, k, i);
      }
    }
  }

  lemma OpenKeepsReported(f: Flow, due: Time, now: Time, visible: set<Match>, recipients: set<Id>)
    requires Reported(f)
    ensures Reported(Opened(f, due, now, visible, recipients))
  {
    var f' := Opened(f, due, now, visible, recipients);
    forall k | 0 <= k < |f'.sc.windows| ensures ReportedAt(f', f'.sc.windows[k]) {
      if k < |f.sc.windows| {
        assert ReportedAt(f, f.sc.windows[k]);
      }
    }
  }

  lemma StepKeepsReported(f: Flow, a: Action)
    requires Inv(f) && Reported(f) && ReportsOnly(a)
    ensures Reported(Step(f, a).0) && Step(f, a).1 != Broken
  {
    if a.DoTick? {
      TickKeepsReported(f, a);
    } else {
      var f' := Step(f, a).0;
      forall k | 0 <= k < |f'.sc.windows| ensures ReportedAt(f', f'.sc.windows[k]) {
        assert ReportedAt(f, f.sc.windows[k]);
        FindsDue(f.sc.windows, k);
      }
    }
  }

  lemma TickKeepsReported(f: Flow, a: Action)
    requires Inv(f) && Reported(f) && a.DoTick?
    ensures Reported(Step(f, a).0) && Step(f, a).1 != Broken
  {
    hide Inv, Reported, ClaimFor;
    NothingUnreported(f, a.dbNow);
    TickBreaksExactly(f, a);
    match Select(f, a.now, a.dbNow, a.hour, a.minute, a.weekdays)
    case Nothing =>
    case Existing(i) => ClaimKeepsReported(f, i, a.now);
    case Fresh(due) =>
      OpenKeepsInv(f, due, a.now, a.visible, a.recipients);
      OpenKeepsReported(f, due, a.now, a.visible, a.recipients);
      ClaimKeepsReported(Opened(f, due, a.now, a.visible, a.recipients), |f.sc.windows|, a.now);
  }

  /** From the empty tables the report job alone never breaks a tick: every window it completed has its report. */
  lemma {:induction false} ReportsAloneNeverBreak(f: Flow, run: seq<Action>, a: Action)
    requires Inv(f) && Reported(f) && (forall b <- run :: ReportsOnly(b)) && ReportsOnly(a)
    ensures Step(Run(f, run), a).1 != Broken
    decreases |run|
  {
    if run == [] {
      StepKeepsReported(f, a);
    } else {
      hide Inv, Reported, Step;
      assert run[0] in run;
      StepKeepsInv(f, run[0]);
      StepKeepsReported(f, run[0]);
      ReportsAloneNeverBreak(Step(f, run[0]).0, run[1..], a);
    }
  }

  // ---- what a tick claims ----

  /** What a tick is about: the newest unreported window, else the pending one, else a new one if a slot is due. */
  function Considered(f: Flow, a: Action): Option<Window>
    requires a.DoTick?
  {
    var older, pending := NewestUnreported(f.reports, f.sc.windows, a.dbNow), FindPending(f.sc.windows);
    if older.Some? then Some(f.sc.windows[older.value])
    else if pending.Some? then Some(f.sc.windows[pending.value])
    else
      match DueTimes.LatestDue(a.now, f.sc.lastSuccess, a.hour, a.minute, a.weekdays)
      case None => None
      case Some(due) =>
        var items := Snapshot(a.visible, f.sc.lastSuccess, a.now);
        Some(Window(due, a.now, WindowPending, f.sc.lastSuccess, items, a.recipients))
  }

  /** A report that is missing, or kept and below three attempts and failed or past its lease. */
  predicate Takes(f: Flow, w: Window, now: Time) {
    w.due in f.reports ==>
      && !f.reports[w.due].deleted && f.reports[w.due].attempts < 3
      && (f.reports[w.due].status == R.Failed
          || (f.reports[w.due].status == R.Generating && f.reports[w.due].claimedAt + LEASE < now))
  }

  /** The claim of window w that this step makes: one attempt on, under a new token, for its report alone. */
  predicate ClaimOf(f: Flow, f': Flow, outcome: Outcome, w: Window, now: Time) {
    && outcome == Granted(w.due, f.nextToken) && f'.nextToken == f.nextToken + 1
    && w.due in f'.reports && f'.reports == f.reports[w.due := f'.reports[w.due]]
    && var r := f'.reports[w.due];
    && r.status == R.Generating && r.token == f.nextToken && r.claimedAt == now && !r.deleted
    && r.attempts == (if w.due in f.reports then f.reports[w.due].attempts else 0) + 1
  }

  lemma ClaimGrantsExactly(f: Flow, i: nat, now: Time)
    requires i < |f.sc.windows| && ClaimFor(f, i, now).1 != Broken
    ensures var (f', outcome) := ClaimFor(f, i, now); var w := f.sc.windows[i];
      && (outcome.Granted? <==> w.items != {} && Takes(f, w, now))
      && (outcome.Granted? ==> ClaimOf(f, f', outcome, w, now))
      && (!outcome.Granted? ==> f'.reports == f.reports && f'.nextToken == f.nextToken)
  {
  }

  /**
   A tick that does not break grants a claim exactly when the window it is about has items and its report
   is missing or may be taken; the report then is generating under the new token, one attempt on.
   */
  lemma TickGrantsExactly(f: Flow, a: Action)
    requires Inv(f) && a.DoTick? && Step(f, a).1 != Broken
    ensures var (f', outcome) := Step(f, a); var w := Considered(f, a);
      && (outcome.Granted? <==> w.Some? && w.value.items != {} && Takes(f, w.value, a.now))
      && (outcome.Granted? ==> ClaimOf(f, f', outcome, w.value, a.now))
      && (!outcome.Granted? ==> f'.reports == f.reports && f'.nextToken == f.nextToken)
  {
    hide Inv, ClaimFor, Takes, ClaimOf;
    InvParts(f);
    var ws := f.sc.windows;
    forall i | 0 <= i < |ws| ensures ws[i].due <= ws[i].end {
      assert TileAt(ws, i);
    }
    match Select(f, a.now, a.dbNow, a.hour, a.minute, a.weekdays)
    case Nothing =>
    case Existing(i) => ClaimGrantsExactly(f, i, a.now);
    case Fresh(due) =>
      var begun := Opened(f, due, a.now, a.visible, a.recipients);
      FreshIsUnreported(f, a);
      ClaimGrantsExactly(begun, |ws|, a.now);
      SameReports(f, begun, Step(f, a).0, Step(f, a).1, begun.sc.windows[|ws|], a.now);
  }

  lemma SameReports(f: Flow, begun: Flow, f': Flow, outcome: Outcome, w: Window, now: Time)
    requires begun.reports == f.reports && begun.nextToken == f.nextToken
    ensures Takes(begun, w, now) == Takes(f, w, now)
    ensures ClaimOf(begun, f', outcome, w, now) == ClaimOf(f, f', outcome, w, now)
  {
  }

  /** A slot that is newly due has no report yet. */
  lemma FreshIsUnreported(f: Flow, a: Action)
    requires Inv(f) && a.DoTick? && FindPending(f.sc.windows).None?
    ensures var due := DueTimes.LatestDue(a.now, f.sc.lastSuccess, a.hour, a.minute, a.weekdays);
      due.Some? ==> due.value !in f.reports
  {
    InvParts(f);
    NewDueIsFresh(f.sc, a.now, a.hour, a.minute, a.weekdays);
    var due := DueTimes.LatestDue(a.now, f.sc.lastSuccess, a.hour, a.minute, a.weekdays);
    if due.Some? {
      ReportHasWindow(f, due.value);
    }
  }

  lemma ReportHasWindow(f: Flow, due: Time)
    requires Inv(f)
    ensures due in f.reports ==> FindDue(f.sc.windows, due).Some?
  {
    assert due in f.reports ==> RepInv(f, due, f.reports[due]);
  }

  /** A tick about a pending window without items, or whose report was deleted, closes it; no other tick closes one. */
  lemma TickClosesExactly(f: Flow, a: Action)
    requires Inv(f) && a.DoTick? && FindPending(f.sc.windows).Some?
    requires NewestUnreported(f.reports, f.sc.windows, a.dbNow).None?
    ensures var (f', outcome) := Step(f, a); var last := |f.sc.windows| - 1; var w := f.sc.windows[last];
      var nothing := w.items == {} || (w.due in f.reports && f.reports[w.due].deleted);
      && (nothing ==>
            && outcome == Done && f'.reports == f.reports
            && f'.sc == Schedule(Some(w.end), f.sc.windows[last := w.(status := WindowCompleted)]))
      && (!nothing ==> f'.sc == f.sc)
  {
    InvParts(f);
    var i := FindPending(f.sc.windows).value;
    PendingIsLast(f.sc.windows, i);
    TickBreaksExactly(f, a);
    assert TileAt(f.sc.windows, i);
  }

  // ---- what workers and operators do ----

  /** The flow after a claim of this report: generating under the next token from now on. */
  function Claimed(f: Flow, due: Time, attempts: nat, now: Time): Flow
    requires due in f.reports
  {
    var r := Rep(R.Generating, attempts, f.nextToken, now, f.reports[due].deleted, f.reports[due].start);
    f.(reports := f.reports[due := r], nextToken := f.nextToken + 1)
  }

  /** Finalising marks the report and closes its window; a failure touches the report only. */
  lemma WorkerSteps(f: Flow, due: Time, token: nat, now: Time)
    requires Inv(f) && due in f.reports
    ensures var r := f.reports[due]; var held := r.status == R.Generating && r.token == token;
      var i := FindDue(f.sc.windows, due).value;
      && (Finalize(f, due, token).1 == Done <==> held && f.sc.windows[i].status != WindowFailed)
      && (Finalize(f, due, token).1 == Done ==>
            Finalize(f, due, token).0 ==
              f.(reports := f.reports[due := r.(status := R.Generated)], sc := CloseAt(f.sc, i, WindowCompleted)))
      && (held ==> Fail(f, due, token).0 == f.(reports := f.reports[due := r.(status := R.Failed)]))
      && (!held ==> Fail(f, due, token).0 == f)
      && (Reclaim(f, due, now).1.Granted? <==>
            !r.deleted && r.attempts < 3
            && (r.status == R.Failed || (r.status == R.Generating && r.claimedAt + LEASE < now)))
      && (Retry(f, due, now).1.Granted? <==> !r.deleted && r.status == R.Failed)
      && (Delete(f, due).1 == Done <==> r.status != R.Generating)
      && (Reclaim(f, due, now).1.Granted? ==>
            Reclaim(f, due, now).0 == Claimed(f, due, r.attempts + 1, now))
      && (Retry(f, due, now).1.Granted? ==> Retry(f, due, now).0 == Claimed(f, due, 1, now))
      && (Delete(f, due).1 == Done ==> Delete(f, due).0 == f.(reports := f.reports[due := r.(deleted := true)]))
      && (!Reclaim(f, due, now).1.Granted? ==> Reclaim(f, due, now).0 == f)
      && (!Retry(f, due, now).1.Granted? ==> Retry(f, due, now).0 == f)
      && (Delete(f, due).1 != Done ==> Delete(f, due).0 == f)
  {
    assert RepInv(f, due, f.reports[due]);
  }

  // ---- a window whose report is given up ----

  /** A tick opens a window exactly when none is pending, none is left to report, and a slot is due. */
  lemma TickOpensExactly(f: Flow, a: Action)
    requires Inv(f) && a.DoTick?
    ensures var f' := Step(f, a).0;
      && (|f'.sc.windows| == |f.sc.windows| || |f'.sc.windows| == |f.sc.windows| + 1)
      && (|f'.sc.windows| > |f.sc.windows| <==>
            FindPending(f.sc.windows).None? && NewestUnreported(f.reports, f.sc.windows, a.dbNow).None?
            && DueTimes.LatestDue(a.now, f.sc.lastSuccess, a.hour, a.minute, a.weekdays).Some?)
  {
    forall i | 0 <= i < |f.sc.windows| ensures f.sc.windows[i].due <= f.sc.windows[i].end {
      assert TileAt(f.sc.windows, i);
    }
  }

  /** The last window is pending, and its report has used up its attempts. */
  predicate GivenUp(f: Flow) {
    && f.sc.windows != []
    && var w := f.sc.windows[|f.sc.windows| - 1];
    && w.status == WindowPending && w.items != {}
    && w.due in f.reports
    && var r := f.reports[w.due];
    && !r.deleted && r.attempts == MAX_ATTEMPTS && r.status != R.Generated
  }

  /** What could still release it: its holder, the operator, or the mail flow. */
  predicate Releases(f: Flow, a: Action)
    requires f.sc.windows != [] && f.sc.windows[|f.sc.windows| - 1].due in f.reports
  {
    var due := f.sc.windows[|f.sc.windows| - 1].due;
    match a
    case DoFinalize(d, token) => d == due && token == f.reports[due].token
    case DoFail(d, token) => d == due && token == f.reports[due].token
    case DoRetry(d, _) => d == due
    case DoDelete(d) => d == due
    case MailClose(_, _) => true
    case _ => false
  }

  lemma ClaimLeavesGivenUp(f: Flow, i: nat, now: Time, dbNow: Time)
    requires Inv(f) && GivenUp(f) && i < |f.sc.windows|
    requires i == |f.sc.windows| - 1 || Unreported(f.reports, f.sc.windows[i], dbNow)
    ensures var f' := ClaimFor(f, i, now).0; var due := f.sc.windows[|f.sc.windows| - 1].due;
      f'.sc.windows == f.sc.windows && due in f'.reports && f'.reports[due] == f.reports[due]
  {
    var last := |f.sc.windows| - 1;
    if i < last {
      WindowsOrdered(f.sc.windows, i, last);
      assert TileAt(f.sc.windows, i);
    }
  }

  lemma GivenUpStep(f: Flow, a: Action)
    requires Inv(f) && GivenUp(f) && !Releases(f, a)
    ensures var f' := Step(f, a).0; var due := f.sc.windows[|f.sc.windows| - 1].due;
      f'.sc.windows == f.sc.windows && due in f'.reports && f'.reports[due] == f.reports[due]
  {
    var last := |f.sc.windows| - 1;
    match a
    case DoTick(now, dbNow, hour, minute, weekdays, visible, recipients) =>
      hide ClaimFor, Inv;
      InvParts(f);
      var older := NewestUnreported(f.reports, f.sc.windows, dbNow);
      if older.Some? {
        ClaimLeavesGivenUp(f, older.value, now, dbNow);
      } else {
        PendingIsLast(f.sc.windows, FindPending(f.sc.windows).value);
        ClaimLeavesGivenUp(f, last, now, dbNow);
      }
    case DoFinalize(due, token) =>
      var i := FindDue(f.sc.windows, due);
      if Finalize(f, due, token).1 == Done && i.value < last {
        assert TileAt(f.sc.windows, i.value);
      }
    case _ =>
  }

  /**
   A pending window whose report is failed or abandoned at attempt three holds its schedule: until the
   holder settles it or an operator retries or deletes it, no tick closes the window, claims its
   report or opens a later window, however many slots fall due.
   */
  lemma {:induction false} GivenUpReportHoldsItsSchedule(f: Flow, run: seq<Action>)
    requires Inv(f) && GivenUp(f) && forall a <- run :: !Releases(f, a)
    ensures var f' := Run(f, run); var due := f.sc.windows[|f.sc.windows| - 1].due;
      f'.sc.windows == f.sc.windows && due in f'.reports && f'.reports[due] == f.reports[due] && GivenUp(f')
    decreases |run|
  {
    if run != [] {
      hide Inv, Step;
      assert run[0] in run;
      GivenUpStep(f, run[0]);
      StepKeepsInv(f, run[0]);
      forall b | b in run[1..] ensures !Releases(Step(f, run[0]).0, b) {
        assert b in run;
      }
      GivenUpReportHoldsItsSchedule(Step(f, run[0]).0, run[1..]);
    }
  }

  /**
   The operator can release it exactly when it failed: a retry that is finalised closes the window, and
   so does a deletion at the next tick that has nothing older to report. While it is generating both are
   refused.
   */
  lemma OperatorReleasesExactlyWhatFailed(f: Flow, now: Time, a: Action)
    requires Inv(f) && GivenUp(f) && a.DoTick?
    ensures var last := |f.sc.windows| - 1; var due := f.sc.windows[last].due;
      var retried := Retry(f, due, now); var deleted := Delete(f, due);
      && (f.reports[due].status == R.Failed ==>
            && retried.1 == Granted(due, f.nextToken)
            && Finalize(retried.0, due, f.nextToken).1 == Done
            && Finalize(retried.0, due, f.nextToken).0.sc.windows[last].status == WindowCompleted)
      && (f.reports[due].status == R.Failed && NewestUnreported(f.reports, f.sc.windows, a.dbNow).None? ==>
            && deleted.1 == Done && Step(deleted.0, a).1 == Done
            && Step(deleted.0, a).0.sc.windows[last].status == WindowCompleted)
      && (f.reports[due].status == R.Generating ==> retried == (f, Skipped) && deleted == (f, Refused))
  {
    var last := |f.sc.windows| - 1;
    var w := f.sc.windows[last];
    FindsDue(f.sc.windows, last);
    assert TileAt(f.sc.windows, last);
    if f.reports[w.due].status == R.Failed && NewestUnreported(f.reports, f.sc.windows, a.dbNow).None? {
      var deleted := Delete(f, w.due).0;
      StillNothingUnreported(f, w.due, a.dbNow);
      PendingIsLast(f.sc.windows, FindPending(f.sc.windows).value);
      assert Select(deleted, a.now, a.dbNow, a.hour, a.minute, a.weekdays) == Existing(last);
    }
  }

  lemma StillNothingUnreported(f: Flow, due: Time, dbNow: Time)
    requires due in f.reports && NewestUnreported(f.reports, f.sc.windows, dbNow).None?
    ensures NewestUnreported(f.reports[due := f.reports[due].(deleted := true)], f.sc.windows, dbNow).None?
  {
  }

  // ---- runs from the empty table that get there ----

  /** Nine o'clock in Korea on the second and third days of the calendar. */
  const NINE: Time := 86_400_000_000_000
  const NEXT: Time := 172_800_000_000_000

  /** The mail flow completes two windows; then the report job takes over and reports the newer one. */
  const MIXED: seq<Action> := [
    MailOpen(NINE, NINE, {Match(1, NINE)}, {7}), MailClose(0, WindowCompleted),
    MailOpen(NEXT, NEXT, {Match(2, NEXT)}, {7}), MailClose(1, WindowCompleted),
    DoTick(NEXT, NEXT, 9, 0, [3], {}, {7}), Action.DoFinalize(NEXT, 0)
  ]

  lemma RunOne(f: Flow, a: Action, rest: seq<Action>, next: Flow)
    requires Step(f, a).0 == next
    ensures Run(f, [a] + rest) == Run(next, rest)
  {
    hide Step;
    assert ([a] + rest)[1..] == rest;
  }

  const OLD := Window(NINE, NINE, WindowCompleted, None, {Match(1, NINE)}, {7})
  const NEW := Window(NEXT, NEXT, WindowCompleted, Some(NINE), {Match(2, NEXT)}, {7})
  const SERVED := Schedule(Some(NEXT), [OLD, NEW])
  const WORKING := Rep(R.Generating, 1, 0, NEXT, false, Some(NEXT))

  lemma MailLeavesTwo()
    ensures Run(EMPTY, MIXED) == Run(Flow(SERVED, map[], 0), MIXED[4..])
  {
    var one := Flow(Schedule(None, [OLD.(status := WindowPending)]), map[], 0);
    var two := Flow(Schedule(Some(NINE), [OLD]), map[], 0);
    var three := Flow(Schedule(Some(NINE), [OLD, NEW.(status := WindowPending)]), map[], 0);
    assert Snapshot({Match(1, NINE)}, None, NINE) == {Match(1, NINE)};
    assert Snapshot({Match(2, NEXT)}, Some(NINE), NEXT) == {Match(2, NEXT)};
    RunOne(EMPTY, MIXED[0], MIXED[1..], one);
    RunOne(one, MIXED[1], MIXED[2..], two);
    RunOne(two, MIXED[2], MIXED[3..], three);
    RunOne(three, MIXED[3], MIXED[4..], Flow(SERVED, map[], 0));
    assert MIXED == [MIXED[0]] + MIXED[1..] && MIXED[1..] == [MIXED[1]] + MIXED[2..];
    assert MIXED[2..] == [MIXED[2]] + MIXED[3..] && MIXED[3..] == [MIXED[3]] + MIXED[4..];
  }

  /** The newer window is reported without trouble, because nothing was closed after it. */
  lemma NewerIsReported()
    ensures Run(Flow(SERVED, map[], 0), MIXED[4..]) == Flow(SERVED, map[NEXT := WORKING.(status := R.Generated)], 1)
  {
    var claimed := Flow(SERVED, map[NEXT := WORKING], 1);
    var done := Flow(SERVED, map[NEXT := WORKING.(status := R.Generated)], 1);
    assert NewestUnreported(map[], SERVED.windows, NEXT) == Some(1);
    assert FindDue(SERVED.windows, NEXT) == Some(1);
    RunOne(Flow(SERVED, map[], 0), MIXED[4], [MIXED[5]], claimed);
    RunOne(claimed, MIXED[5], [], done);
    assert MIXED[4..] == [MIXED[4]] + [MIXED[5]] && [MIXED[5]] == [MIXED[5]] + [];
    assert Run(done, []) == done;
  }

  /** From then on the older window is selected in every tick, and every tick breaks. */
  lemma MixedFlowsWedge(ticks: seq<Action>)
    requires forall a <- ticks :: a.DoTick?
    ensures var f := Run(EMPTY, MIXED);
      Wedged(f, 0) && Run(f, ticks) == f && forall a <- ticks :: Step(f, a) == (f, Broken)
  {
    MailLeavesTwo();
    NewerIsReported();
    var f := Run(EMPTY, MIXED);
    assert f.sc.windows[1] == NEW && NEXT in f.reports && NINE !in f.reports;
    RunKeepsInv(EMPTY, MIXED);
    WedgedTicksBreak(f, 0, ticks);
  }

  /** The report job alone: a slot is due, and its report fails three times. */
  const FAILING: seq<Action> := [
    DoTick(NINE, NINE, 9, 0, [2], {Match(1, NINE)}, {7}), DoFail(NINE, 0),
    DoReclaim(NINE, NINE), DoFail(NINE, 1), DoReclaim(NINE, NINE), DoFail(NINE, 2)
  ]

  lemma NineIsDue()
    ensures DueTimes.LatestDue(NINE, None, 9, 0, [2]) == Some(NINE)
  {
    assert DueTimes.LocalDay(NINE) == 1 && DueTimes.SlotOn(1, 9, 0) == NINE && DueTimes.Weekday(1) == 2;
    assert 2 in [2];
    assert DueTimes.Elapsed(NINE, 1, 9, 0, [2]);
    assert DueTimes.SearchBack(NINE, 9, 0, [2], 0) == Some(NINE);
  }

  const OPEN := Schedule(None, [OLD.(status := WindowPending)])
  const FIRST := Rep(R.Generating, 1, 0, NINE, false, None)
  const SECOND_FAILED := Rep(R.Failed, 2, 1, NINE, false, None)
  const GIVEN_UP := Flow(OPEN, map[NINE := Rep(R.Failed, 3, 2, NINE, false, None)], 3)

  const AGAIN := Flow(OPEN, map[NINE := FIRST.(status := R.Failed)], 1)

  lemma FirstFailure()
    ensures Run(EMPTY, FAILING) == Run(AGAIN, FAILING[2..])
  {
    NineIsDue();
    assert Snapshot({Match(1, NINE)}, None, NINE) == {Match(1, NINE)};
    assert [] + [OLD.(status := WindowPending)] == [OLD.(status := WindowPending)];
    var claimed := Flow(OPEN, map[NINE := FIRST], 1);
    RunOne(EMPTY, FAILING[0], FAILING[1..], claimed);
    RunOne(claimed, FAILING[1], FAILING[2..], AGAIN);
    assert FAILING == [FAILING[0]] + FAILING[1..] && FAILING[1..] == [FAILING[1]] + FAILING[2..];
  }

  lemma SecondFailure()
    ensures Run(AGAIN, FAILING[2..]) == Run(Flow(OPEN, map[NINE := SECOND_FAILED], 2), FAILING[4..])
  {
    var claimed := Flow(OPEN, map[NINE := SECOND_FAILED.(status := R.Generating)], 2);
    RunOne(AGAIN, FAILING[2], FAILING[3..], claimed);
    RunOne(claimed, FAILING[3], FAILING[4..], Flow(OPEN, map[NINE := SECOND_FAILED], 2));
    assert FAILING[2..] == [FAILING[2]] + FAILING[3..] && FAILING[3..] == [FAILING[3]] + FAILING[4..];
  }

  lemma ThirdFailure()
    ensures Run(Flow(OPEN, map[NINE := SECOND_FAILED], 2), FAILING[4..]) == GIVEN_UP
  {
    var f5 := Flow(OPEN, map[NINE := Rep(R.Generating, 3, 2, NINE, false, None)], 3);
    RunOne(Flow(OPEN, map[NINE := SECOND_FAILED], 2), FAILING[4], FAILING[5..], f5);
    RunOne(f5, FAILING[5], [], GIVEN_UP);
    assert FAILING[4..] == [FAILING[4]] + FAILING[5..] && FAILING[5..] == [FAILING[5]] + [];
    assert Run(GIVEN_UP, []) == GIVEN_UP;
  }

  /** From then on the schedule is held, however many slots fall due, until an operator acts. */
  lemma ThreeFailuresHoldTheSchedule(ticks: seq<Action>)
    requires forall a <- ticks :: a.DoTick?
    ensures var f := Run(EMPTY, FAILING);
      GivenUp(f) && Run(f, ticks).sc.windows == f.sc.windows && GivenUp(Run(f, ticks))
  {
    hide Run;
    FirstFailure();
    SecondFailure();
    ThirdFailure();
    assert Inv(EMPTY);
    RunKeepsInv(EMPTY, FAILING);
    GivenUpReportHoldsItsSchedule(GIVEN_UP, ticks);
  }
}
