/** The promises of the digest protocol, over every run from the empty database or from any good state. */
module DigestTheorems {
  import opened Basics
  import opened DigestModel
  import opened DigestInvariant
  import opened DigestDelivery
  import DueTimes

  // ---- windows, in both flows ----

  /** The interval of a window: matches created in (since, end] belong to it. */
  predicate Covers(w: Window, t: Time) {
    After(w.since, t) && t <= w.end
  }

  lemma {:induction false} CoverExists(ws: seq<Window>, n: nat, t: Time) returns (i: nat)
    requires WindowsTile(ws) && n < |ws| && t <= ws[n].end
    ensures i <= n && Covers(ws[i], t)
  {
    i := n;
    assert TileAt(ws, n);
    if !Covers(ws[n], t) {
      i := CoverExists(ws, n - 1, t);
    }
  }

  lemma CoverUnique(ws: seq<Window>, i: nat, j: nat, t: Time)
    requires WindowsTile(ws) && i < |ws| && j < |ws|
    requires Covers(ws[i], t) && Covers(ws[j], t)
    ensures i == j
  {
    if i != j {
      var a, b := if i < j then i else j, if i < j then j else i;
      assert TileAt(ws, b);
      if a < b - 1 {
        assert TileAt(ws, b - 1);
        WindowsOrdered(ws, a, b - 1);
      }
    }
  }

  lemma ReachableSchedule(run: seq<Action>, s: Id)
    requires s in Run(EMPTY, run).schedules
    ensures ScheduleInv(Run(EMPTY, run).schedules[s])
  {
    RunKeepsInv(EMPTY, run);
  }

  /**
   Whatever mixture of the two flows has run, a schedule's windows in order of creation do not
   overlap, at most the last is pending, and the schedule has succeeded up to the largest terminal end.
   */
  lemma WindowsInOrder(run: seq<Action>, s: Id)
    requires s in Run(EMPTY, run).schedules
    ensures var sc := Run(EMPTY, run).schedules[s]; var ws := sc.windows;
      && (forall i :: 0 <= i < |ws| ==> ws[i].due <= ws[i].end)
      && (forall i, j :: 0 <= i < j < |ws| ==> ws[i].end < ws[j].due)
      && (forall i :: 0 <= i < |ws| && ws[i].status == WindowPending ==> i == |ws| - 1)
      && (forall i :: 0 <= i < |ws| && ws[i].status != WindowPending ==>
        sc.lastSuccess.Some? && ws[i].end <= sc.lastSuccess.value)
      && (sc.lastSuccess.Some? ==>
            exists i :: 0 <= i < |ws| && ws[i].status != WindowPending && ws[i].end == sc.lastSuccess.value)
  {
    ReachableSchedule(run, s);
    var sc := Run(EMPTY, run).schedules[s];
    var ws := sc.windows;
    forall i | 0 <= i < |ws|
      ensures ws[i].due <= ws[i].end
      ensures ws[i].status == WindowPending ==> i == |ws| - 1
    {
      assert TileAt(ws, i);
    }
    forall i, j | 0 <= i < j < |ws|
      ensures ws[i].end < ws[j].due
    {
      WindowsOrdered(ws, i, j);
    }
    if sc.lastSuccess.Some? {
      var top := if ws[|ws| - 1].status == WindowPending then |ws| - 2 else |ws| - 1;
      assert TileAt(ws, top);
      assert ws[top].status != WindowPending && ws[top].end == sc.lastSuccess.value;
    }
    forall i | 0 <= i < |ws| && ws[i].status != WindowPending
      ensures sc.lastSuccess.Some? && ws[i].end <= sc.lastSuccess.value
    {
      assert i < |ws| - 1 ==> ws[i].end < ws[|ws| - 1].due;
      assert i < |ws| - 2 ==> ws[i].end < ws[|ws| - 2].due <= ws[|ws| - 2].end;
    }
  }

  /** Every instant up to the end of the last window lies in the interval of exactly one window. */
  lemma EveryInstantInOneWindow(run: seq<Action>, s: Id, t: Time) returns (i: nat)
    requires s in Run(EMPTY, run).schedules
    requires var ws := Run(EMPTY, run).schedules[s].windows; ws != [] && t <= ws[|ws| - 1].end
    ensures var ws := Run(EMPTY, run).schedules[s].windows;
      i < |ws| && Covers(ws[i], t) && forall j :: 0 <= j < |ws| && Covers(ws[j], t) ==> j == i
  {
    ReachableSchedule(run, s);
    var ws := Run(EMPTY, run).schedules[s].windows;
    i := CoverExists(ws, |ws| - 1, t);
    forall j | 0 <= j < |ws| && Covers(ws[j], t)
      ensures j == i
    {
      CoverUnique(ws, i, j, t);
    }
  }

  /** No match is snapshotted into two windows of one schedule. */
  lemma NoMatchTwice(run: seq<Action>, s: Id, i: nat, j: nat, m: Match)
    requires s in Run(EMPTY, run).schedules
    requires var ws := Run(EMPTY, run).schedules[s].windows;
      i < |ws| && j < |ws| && m in ws[i].items && m in ws[j].items
    ensures i == j
  {
    ReachableSchedule(run, s);
    var ws := Run(EMPTY, run).schedules[s].windows;
    assert TileAt(ws, i) && TileAt(ws, j);
    CoverUnique(ws, i, j, m.createdAt);
  }

  /** The windows of a schedule, none before it is created. */
  function WindowsOf(db: Db, s: Id): seq<Window> {
    if s in db.schedules then db.schedules[s].windows else []
  }

  /** The transaction of the run that created window i of the schedule. */
  ghost function OpenedBy(db: Db, run: seq<Action>, s: Id, i: nat): Option<Action>
    decreases |run|
  {
    if run == [] then None
    else if |WindowsOf(db, s)| <= i < |WindowsOf(Step(db, run[0]).0, s)| then Some(run[0])
    else OpenedBy(Step(db, run[0]).0, run[1..], s, i)
  }

  /** The same window, perhaps closed meanwhile. */
  predicate SameSnapshot(w: Window, w': Window) {
    w'.(status := w.status) == w
  }

  predicate CloseOf(ws: seq<Window>, ws': seq<Window>) {
    |ws'| == |ws| && forall i :: 0 <= i < |ws| ==> SameSnapshot(ws[i], ws'[i])
  }

  lemma CompleteClosesOnly(db: Db, s: Id, due: Time, end: Time, t: Id)
    ensures CloseOf(WindowsOf(db, t), WindowsOf(CompleteWindow(db, s, due, end), t))
  {
  }

  /** A step only closes windows, but for an opening, which may add one. */
  lemma SnapshotsStay(db: Db, a: Action, s: Id)
    requires Inv(db)
    ensures var ws, ws' := WindowsOf(db, s), WindowsOf(Step(db, a).0, s);
      || CloseOf(ws, ws')
      || (a.Open? && a.s == s && |ws'| == |ws| + 1 && ws == ws'[..|ws|] && ws'[|ws|].end == a.now
          && ws'[|ws|].items == Snapshot(a.visible, ws'[|ws|].since, a.now))
  {
    hide Inv, CompleteWindow;
    match a
    case Tick(_) =>
    case NewSchedule(_) =>
    case Open(_, _, _, _, _, _, _) =>
    case DoClaim(lag, id, end, key) =>
      ClaimShape(db, lag, id, end, key);
      hide Claim;
      var adopted := AdoptKey(db, id, end, key);
      CompleteClosesOnly(adopted, id.schedule, id.due, end, s);
      if id in adopted.deliveries {
        var d := Reclaimed(adopted.deliveries[id], db.clock - lag, db.nextToken);
        CompleteClosesOnly(Put(adopted, id, d).(nextToken := db.nextToken + 1), id.schedule, id.due, end, s);
      }
    case DoFinalize(id, end, _, _, _, sentAt) =>
      if id in db.deliveries {
        var d := db.deliveries[id];
        var d' := if sentAt.Some? then d.(status := Sent, sentAt := sentAt) else d.(status := Failed);
        CompleteClosesOnly(Put(db, id, d'), id.schedule, id.due, end, s);
      }
    case Noop(_, _, _) =>
    case ReportClose(_, _, _) =>
  }

  /** Every window holds what its opening saw in its interval, for ever. */
  lemma {:induction false} SnapshotsAreOfTheirOpening(db: Db, run: seq<Action>, s: Id, i: nat)
    requires Inv(db) && i < |WindowsOf(Run(db, run), s)|
    ensures var w := WindowsOf(Run(db, run), s)[i];
      if i < |WindowsOf(db, s)| then SameSnapshot(WindowsOf(db, s)[i], w)
      else
        var opener := OpenedBy(db, run, s, i);
        && opener.Some? && opener.value.Open? && opener.value.s == s && opener.value.now == w.end
        && w.items == Snapshot(opener.value.visible, w.since, w.end)
    decreases |run|
  {
    if run != [] {
      hide Inv, Step, Snapshot;
      var next := Step(db, run[0]).0;
      StepKeepsInv(db, run[0]);
      SnapshotsStay(db, run[0], s);
      SnapshotsAreOfTheirOpening(next, run[1..], s, i);
      assert i < |WindowsOf(db, s)| && run[0].Open? ==>
        |WindowsOf(next, s)| > i && SameSnapshot(WindowsOf(db, s)[i], WindowsOf(next, s)[i]);
    }
  }

  /**
   No match is lost but by its clock: a match created up to the end of the last window is in the one
   window that covers its creation exactly when it was visible to the transaction that opened that
   window. A match that becomes visible only later, with a creation time at or before the end that
   was fixed, is in no window at all.
   */
  lemma MatchIsServedExactlyWhenSeen(run: seq<Action>, s: Id, m: Match) returns (i: nat)
    requires s in Run(EMPTY, run).schedules
    requires var ws := Run(EMPTY, run).schedules[s].windows; ws != [] && m.createdAt <= ws[|ws| - 1].end
    ensures var ws := Run(EMPTY, run).schedules[s].windows; var opener := OpenedBy(EMPTY, run, s, i);
      && i < |ws| && Covers(ws[i], m.createdAt) && opener.Some? && opener.value.Open? && opener.value.now == ws[i].end
      && ((exists j :: 0 <= j < |ws| && m in ws[j].items) <==> m in opener.value.visible)
  {
    var ws := Run(EMPTY, run).schedules[s].windows;
    i := EveryInstantInOneWindow(run, s, m.createdAt);
    SnapshotsAreOfTheirOpening(EMPTY, run, s, i);
    ReachableSchedule(run, s);
    forall j | 0 <= j < |ws| && m in ws[j].items
      ensures j == i
    {
      assert TileAt(ws, j);
    }
  }

  /**
   So nothing is lost when every opening sees all the matches created up to its cutoff, as it does
   when the cutoff is the database's own time under the collection lock.
   */
  lemma NothingIsLostUnderOneClock(run: seq<Action>, s: Id, m: Match) returns (i: nat)
    requires s in Run(EMPTY, run).schedules
    requires var ws := Run(EMPTY, run).schedules[s].windows; ws != [] && m.createdAt <= ws[|ws| - 1].end
    requires forall a <- run :: a.Open? && a.s == s && m.createdAt <= a.now ==> m in a.visible
    ensures var ws := Run(EMPTY, run).schedules[s].windows; i < |ws| && m in ws[i].items
  {
    var k := MatchIsServedExactlyWhenSeen(run, s, m);
    OpenedByIsInRun(EMPTY, run, s, k);
    SnapshotsAreOfTheirOpening(EMPTY, run, s, k);
    var ws := Run(EMPTY, run).schedules[s].windows;
    i :| 0 <= i < |ws| && m in ws[i].items;
  }

  lemma {:induction false} OpenedByIsInRun(db: Db, run: seq<Action>, s: Id, i: nat)
    requires OpenedBy(db, run, s, i).Some?
    ensures OpenedBy(db, run, s, i).value in run
    decreases |run|
  {
    hide Step;
    if !(|WindowsOf(db, s)| <= i < |WindowsOf(Step(db, run[0]).0, s)|) {
      OpenedByIsInRun(Step(db, run[0]).0, run[1..], s, i);
    }
  }

  /**
   A created window is due at the schedule's latest slot, ends at the snapshot time, and holds
   exactly the visible matches created since the window before it ended.
   */
  lemma OpenFixesWindow(db: Db, a: Action)
    requires Inv(db) && a.Open? && Step(db, a).1.Opened? && Step(db, a).1.created
    ensures a.s in db.schedules && a.s in Step(db, a).0.schedules
    ensures var ws, ws' := db.schedules[a.s].windows, Step(db, a).0.schedules[a.s].windows;
      && |ws'| == |ws| + 1 && ws == ws'[..|ws|]
      && var w := ws'[|ws|];
      && DueTimes.IsLatestSlot(w.due, a.now, a.hour, a.minute, a.weekdays)
      && w.end == a.now && w.status == WindowPending && w.recipients == a.recipients
      && (forall m ::
            m in w.items <==> m in a.visible && m.createdAt <= a.now && (ws != [] ==> ws[|ws| - 1].end < m.createdAt))
  {
    var sc := db.schedules[a.s];
    var due := DueTimes.LatestDue(a.now, sc.lastSuccess, a.hour, a.minute, a.weekdays).value;
    DueTimes.LatestDueCharacterised(a.now, sc.lastSuccess, a.hour, a.minute, a.weekdays, due);
  }

  /** The conflict branch of the window insert is dead: a selected window that is not pending is new. */
  lemma OpenNeverMeetsConflict(run: seq<Action>, a: Action)
    requires a.Open? && Step(Run(EMPTY, run), a).1.Opened? && !Step(Run(EMPTY, run), a).1.created
    ensures FindPending(Run(EMPTY, run).schedules[a.s].windows).Some?
  {
    var db := Run(EMPTY, run);
    ReachableSchedule(run, a.s);
    if FindPending(db.schedules[a.s].windows).None? {
      NewDueIsFresh(db.schedules[a.s], a.now, a.hour, a.minute, a.weekdays);
    }
  }

  /** A window with recipients closes once each is sent or exhausted; as completed only if all were sent. */
  lemma CompletionVerdict(db: Db, s: Id, i: nat)
    requires s in db.schedules && ScheduleInv(db.schedules[s]) && i < |db.schedules[s].windows|
    requires db.schedules[s].windows[i].status == WindowPending && db.schedules[s].windows[i].recipients != {}
    ensures var w := db.schedules[s].windows[i];
      var closed := CompleteWindow(db, s, w.due, w.end);
      && closed.deliveries == db.deliveries && s in closed.schedules && i < |closed.schedules[s].windows|
      && var status := closed.schedules[s].windows[i].status;
      && (status == WindowCompleted <==> forall r <- w.recipients :: RecipientSent(db, s, w, r))
      && (status == WindowPending <==>
            exists r <- w.recipients :: !RecipientSent(db, s, w, r) && !RecipientExhausted(db, s, w, r))
      && (status != WindowPending ==> closed.schedules[s].lastSuccess == Some(w.end))
  {
    var ws := db.schedules[s].windows;
    FindsIt(ws, i);
    PendingIsLast(ws, i);
    assert TileAt(ws, i);
    if i > 0 {
      assert TileAt(ws, i - 1);
    }
  }

  // ---- frames ----

  /** The parts of the database that an operation on window (s, due) and delivery id leaves alone. */
  ghost predicate OnlyTouches(db: Db, db': Db, id: DeliveryId) {
    && db'.clock == db.clock && db'.schedules.Keys == db.schedules.Keys
    && (forall o: DeliveryId :: o != id ==> SameRow(db, db', o))
    && (forall t, k :: SameWindow(db, db', t, k) || (t == id.schedule && DueAt(db, t, k, id.due)))
  }

  ghost predicate SameRow(db: Db, db': Db, o: DeliveryId) {
    (o in db.deliveries <==> o in db'.deliveries) && (o in db.deliveries ==> db'.deliveries[o] == db.deliveries[o])
  }

  ghost predicate SameWindow(db: Db, db': Db, t: Id, k: int) {
    t in db.schedules && 0 <= k < |db.schedules[t].windows| ==>
      t in db'.schedules && k < |db'.schedules[t].windows| && db'.schedules[t].windows[k] == db.schedules[t].windows[k]
  }

  lemma CompleteTouches(db: Db, id: DeliveryId, end: Time)
    ensures OnlyTouches(db, CompleteWindow(db, id.schedule, id.due, end), id)
    ensures CompleteWindow(db, id.schedule, id.due, end).deliveries == db.deliveries
    ensures CompleteWindow(db, id.schedule, id.due, end).nextToken == db.nextToken
  {
  }

  /** Writing one row, and then perhaps closing its window. */
  lemma WriteTouches(db: Db, written: Db, id: DeliveryId, end: Time)
    requires written.clock == db.clock && written.schedules == db.schedules
    requires forall o: DeliveryId :: o != id ==> SameRow(db, written, o)
    ensures OnlyTouches(db, written, id)
    ensures OnlyTouches(db, CompleteWindow(written, id.schedule, id.due, end), id)
    ensures CompleteWindow(written, id.schedule, id.due, end).deliveries == written.deliveries
  {
    hide CompleteWindow;
    var closed := CompleteWindow(written, id.schedule, id.due, end);
    CompleteTouches(written, id, end);
    forall o: DeliveryId | o != id
      ensures SameRow(db, closed, o)
    {
      assert SameRow(db, written, o) && SameRow(written, closed, o);
    }
    forall t, k
      ensures SameWindow(db, closed, t, k) || (t == id.schedule && DueAt(db, t, k, id.due))
    {
      assert SameWindow(written, closed, t, k) || (t == id.schedule && DueAt(written, t, k, id.due));
    }
  }

  /** The three shapes a claim can take once its window is locked. */
  lemma ClaimShape(db: Db, lag: nat, id: DeliveryId, end: Time, key: string)
    ensures var (next, outcome) := Claim(db, lag, id, end, key);
      var adopted := AdoptKey(db, id, end, key);
      || (next == db && !outcome.Claimed?)
      || (next == CompleteWindow(adopted, id.schedule, id.due, end) && !outcome.Claimed?)
      || (KeyOwner(adopted.deliveries, key) == None && id !in db.deliveries && outcome == Claimed(1, db.nextToken)
          && next ==
            Put(db, id, Delivery(key, end, Sending, 1, db.clock - lag, db.nextToken, None))
            .(nextToken := db.nextToken + 1))
      || (KeyOwner(adopted.deliveries, key) == Some(id) && adopted.deliveries[id].end == end
          && Claimable(adopted.deliveries[id], db.clock - lag)
          && var d := Reclaimed(adopted.deliveries[id], db.clock - lag, db.nextToken);
             var renewed := Put(adopted, id, d).(nextToken := db.nextToken + 1);
             if d.status == Sending then next == renewed && outcome == Claimed(d.attempts, d.token)
             else next == CompleteWindow(renewed, id.schedule, id.due, end) && !outcome.Claimed?)
  {
    hide CompleteWindow;
  }

  lemma ClaimTouches(db: Db, lag: nat, id: DeliveryId, end: Time, key: string)
    ensures OnlyTouches(db, Claim(db, lag, id, end, key).0, id)
  {
    hide CompleteWindow, Claim, OnlyTouches;
    ClaimShape(db, lag, id, end, key);
    var adopted := AdoptKey(db, id, end, key);
    WriteTouches(db, db, id, end);
    WriteTouches(db, adopted, id, end);
    if id in adopted.deliveries {
      var again := Reclaimed(adopted.deliveries[id], db.clock - lag, db.nextToken);
      WriteTouches(db, Put(adopted, id, again).(nextToken := db.nextToken + 1), id, end);
    } else {
      var inserted := Delivery(key, end, Sending, 1, db.clock - lag, db.nextToken, None);
      WriteTouches(db, Put(db, id, inserted).(nextToken := db.nextToken + 1), id, end);
    }
  }

  /**
   A claim changes no delivery but its own and no window but its own. When its key belongs to
   another delivery it changes no delivery at all, and is not granted.
   */
  lemma ClaimTouchesOwnRow(db: Db, lag: nat, id: DeliveryId, end: Time, key: string)
    requires KeysUnique(db.deliveries)
    ensures var (next, outcome) := Claim(db, lag, id, end, key);
      && OnlyTouches(db, next, id)
      && (KeyOwner(db.deliveries, key).Some? && KeyOwner(db.deliveries, key).value != id ==>
            next.deliveries == db.deliveries && !outcome.Claimed?)
  {
    hide CompleteWindow, Claim, OnlyTouches;
    ClaimTouches(db, lag, id, end, key);
    ClaimShape(db, lag, id, end, key);
    CompleteTouches(AdoptKey(db, id, end, key), id, end);
  }

  lemma FinalizeTouchesOwnRow(db: Db, a: Action)
    requires a.DoFinalize?
    ensures OnlyTouches(db, Step(db, a).0, a.id)
  {
    hide CompleteWindow, OnlyTouches;
    WriteTouches(db, db, a.id, a.end);
    if Step(db, a).1 == Finalized {
      var d := db.deliveries[a.id];
      var d' := if a.sentAt.Some? then d.(status := Sent, sentAt := a.sentAt) else d.(status := Failed);
      WriteTouches(db, Put(db, a.id, d'), a.id, a.end);
    }
  }

  // ---- leases ----

  predicate PresentsToken(a: Action, id: DeliveryId, token: nat) {
    a.DoFinalize? && a.id == id && a.token == token
  }

  /** Equal but for the key, which adoption may still replace while the window is pending. */
  predicate SameButKey(d: Delivery, e: Delivery) {
    e.(key := d.key) == d
  }

  /** A claim of this delivery under a key that nobody owns: the row takes that key, leased or not. */
  ghost predicate Adopts(db: Db, a: Action, id: DeliveryId) {
    a.DoClaim? && a.id == id && id in db.deliveries
      && a.end == db.deliveries[id].end && KeyOwner(db.deliveries, a.key).None?
  }

  /** What a claim does to a leased row: it may change its key, and nothing else. */
  lemma LeaseSurvivesClaim(db: Db, a: Action, id: DeliveryId)
    requires FlowInv(db) && a.DoClaim? && id in db.deliveries && LeaseLive(db.deliveries[id], db.clock)
    ensures var d := db.deliveries[id]; var next := Step(db, a).0;
      id in next.deliveries && next.deliveries[id] == d.(key := if Adopts(db, a, id) then a.key else d.key)
  {
    hide Inv, Claim, CompleteWindow, Work, ActiveInPending;
    KeysOf(db);
    if a.id != id {
      ClaimTouchesOwnRow(db, a.lag, a.id, a.end, a.key);
      assert SameRow(db, Step(db, a).0, id);
    } else {
      ActiveLocks(db, id);
      RowEnds(db, id);
      if a.end == db.deliveries[id].end {
        LiveClaimOnlyAdopts(db, a.lag, id, a.key);
        CompleteTouches(AdoptKey(db, id, a.end, a.key), id, a.end);
      } else {
        ClaimWithOtherEnd(db, a.lag, id, a.end, a.key);
      }
    }
  }

  lemma ClaimWithOtherEnd(db: Db, lag: nat, id: DeliveryId, end: Time, key: string)
    requires Inv(db) && id in db.deliveries && db.deliveries[id].end != end
    ensures Claim(db, lag, id, end, key).0 == db
  {
    var i := LockPending(db, id.schedule, id.due, end);
    if i.Some? {
      RowWindow(db, id, i.value);
    }
  }

  /** One step of the mail flow leaves all but the key of a live claim alone, unless its holder finalises it. */
  lemma LeaseSurvivesStep(db: Db, a: Action, id: DeliveryId)
    requires FlowInv(db) && !a.ReportClose?
    requires id in db.deliveries && LeaseLive(db.deliveries[id], db.clock)
    requires !PresentsToken(a, id, db.deliveries[id].token)
    ensures var d := db.deliveries[id]; var next := Step(db, a).0;
      id in next.deliveries && next.deliveries[id] == d.(key := if Adopts(db, a, id) then a.key else d.key)
  {
    hide Inv, Work, ActiveInPending, CompleteWindow, CloseWindow;
    match a
    case Tick(_) =>
    case NewSchedule(_) =>
    case Open(_, _, _, _, _, _, _) =>
    case DoClaim(_, _, _, _) =>
      hide Step;
      LeaseSurvivesClaim(db, a, id);
    case DoFinalize(_, _, _, _, _, _) =>
      FinalizeTouchesOwnRow(db, a);
      assert a.id != id ==> SameRow(db, Step(db, a).0, id);
    case Noop(s, due, end) =>
      CloseKeepsDeliveries(db, s, due, end);
  }

  lemma CloseKeepsDeliveries(db: Db, s: Id, due: Time, end: Time)
    ensures var next := CompleteNoop(db, s, due, end).0;
      next.deliveries == db.deliveries
      || (!ActiveLease(db, s, due, end) && next.deliveries == CancelUnsent(db.deliveries, s, due, end))
  {
  }

  lemma ClockAdvances(db: Db, a: Action)
    ensures db.clock <= Step(db, a).0.clock
  {
    hide CompleteWindow, Claim;
    if a.DoClaim? {
      ClaimShape(db, a.lag, a.id, a.end, a.key);
      var adopted := AdoptKey(db, a.id, a.end, a.key);
      CompleteTouches(adopted, a.id, a.end);
      if a.id in adopted.deliveries {
        var d := Reclaimed(adopted.deliveries[a.id], db.clock - a.lag, db.nextToken);
        CompleteTouches(Put(adopted, a.id, d).(nextToken := db.nextToken + 1), a.id, a.end);
      }
    } else if a.DoFinalize? {
      FinalizeTouchesOwnRow(db, a);
    }
  }

  lemma {:induction false} ClockAdvancesInRun(db: Db, run: seq<Action>)
    ensures db.clock <= Run(db, run).clock
    decreases |run|
  {
    if run != [] {
      ClockAdvances(db, run[0]);
      ClockAdvancesInRun(Step(db, run[0]).0, run[1..]);
    }
  }

  /** The key a row has after the run: the one it had, or the last it adopted. */
  ghost function KeyAfter(db: Db, run: seq<Action>, id: DeliveryId, key: string): string
    decreases |run|
  {
    if run == [] then key
    else KeyAfter(Step(db, run[0]).0, run[1..], id, if Adopts(db, run[0], id) then run[0].key else key)
  }

  /**
   An unfinalised claim no older than the lease is never stolen: whatever the other workers do, under
   whatever keys, its row keeps its token, attempts, status and claim time, and its window is still
   pending. Only its key can change, to the last one adopted.
   */
  lemma {:induction false} LeaseKept(db: Db, run: seq<Action>, id: DeliveryId)
    requires FlowInv(db) && DeliveryFlow(run)
    requires id in db.deliveries && db.deliveries[id].status == Sending
    requires db.deliveries[id].claimedAt >= Run(db, run).clock - LEASE
    requires forall a <- run :: !PresentsToken(a, id, db.deliveries[id].token)
    ensures var final := Run(db, run); var d := db.deliveries[id];
      && id in final.deliveries && SameButKey(d, final.deliveries[id])
      && LockPending(final, id.schedule, id.due, d.end).Some?
      && final.deliveries[id].key == KeyAfter(db, run, id, d.key)
    decreases |run|
  {
    hide Inv, Work, Step, Adopts;
    ClockAdvancesInRun(db, run);
    if run == [] {
      assert PendingIfActive(db, id);
    } else {
      assert run[0] in run;
      LeaseSurvivesStep(db, run[0], id);
      StepKeepsFlow(db, run[0]);
      LeaseKept(Step(db, run[0]).0, run[1..], id);
    }
  }

  /**
   So within the lease, over any run of the mail flow, the holder's finalisation succeeds exactly when
   its row still carries the key of the claim.
   */
  lemma HolderFinalizesExactly(db: Db, run: seq<Action>, id: DeliveryId, sentAt: Option<Time>)
    requires FlowInv(db) && DeliveryFlow(run)
    requires id in db.deliveries && db.deliveries[id].status == Sending
    requires db.deliveries[id].claimedAt >= Run(db, run).clock - LEASE
    requires forall a <- run :: !PresentsToken(a, id, db.deliveries[id].token)
    ensures var d := db.deliveries[id]; var final := Run(db, run);
      && (Finalize(final, id, d.end, d.key, d.token, d.attempts, sentAt).1 == Finalized <==>
        KeyAfter(db, run, id, d.key) == d.key)
      && id in final.deliveries && final.deliveries[id].key == KeyAfter(db, run, id, d.key)
  {
    hide Inv, Work, ActiveInPending, Run, LockPending, CompleteWindow, KeyAfter;
    RowOf(db, id);
    LeaseKept(db, run, id);
    RunKeepsFlow(db, run);
    RowEnds(db, id);
  }

  /** Claims under the delivery's own key never change it. */
  lemma {:induction false} OwnKeyStays(db: Db, run: seq<Action>, id: DeliveryId, key: string)
    requires forall a <- run :: a.DoClaim? && a.id == id ==> a.key == key
    ensures KeyAfter(db, run, id, key) == key
    decreases |run|
  {
    if run != [] {
      hide Step;
      assert run[0] in run;
      OwnKeyStays(Step(db, run[0]).0, run[1..], id, key);
    }
  }

  /** A granted claim stands in the database as it was reported. */
  lemma GrantedClaimIsHeld(db: Db, lag: nat, id: DeliveryId, end: Time, key: string)
    requires Inv(db)
    requires Claim(db, lag, id, end, key).1.Claimed?
    ensures var (next, outcome) := Claim(db, lag, id, end, key);
      && Held(next, id, end, key, outcome.token, outcome.attempts)
      && next.deliveries[id].claimedAt == db.clock - lag
      && 1 <= outcome.attempts <= MAX_ATTEMPTS
      && db.nextToken <= outcome.token < next.nextToken
      && next.clock == db.clock
  {
    hide CompleteWindow, Claim;
    ClaimShape(db, lag, id, end, key);
    assert id in db.deliveries ==> RowInv(db, id, db.deliveries[id]);
  }

  /**
   In particular it always succeeds when every claim uses the key that the delivery's identity
   determines, as the runner's claims do.
   */
  lemma HolderAlwaysFinalizes(db: Db, lag: nat, id: DeliveryId, end: Time, keyOf: DeliveryId -> string,
                              run: seq<Action>, sentAt: Option<Time>)
    requires FlowInv(db) && DeliveryFlow(run)
    requires forall a <- run :: a.DoClaim? ==> a.key == keyOf(a.id)
    requires Claim(db, lag, id, end, keyOf(id)).1.Claimed?
    requires forall a <- run :: !PresentsToken(a, id, Claim(db, lag, id, end, keyOf(id)).1.token)
    requires db.clock - lag >= Run(Claim(db, lag, id, end, keyOf(id)).0, run).clock - LEASE
    ensures var (claimed, grant) := Claim(db, lag, id, end, keyOf(id));
      Finalize(Run(claimed, run), id, end, keyOf(id), grant.token, grant.attempts, sentAt).1 == Finalized
  {
    hide Inv, Work, ActiveInPending, Claim, Run, LockPending, CompleteWindow;
    var claimed := Claim(db, lag, id, end, keyOf(id)).0;
    GrantedClaimIsHeld(db, lag, id, end, keyOf(id));
    ClaimKeepsFlow(db, lag, id, end, keyOf(id));
    HolderFinalizesExactly(claimed, run, id, sentAt);
    OwnKeyStays(claimed, run, id, keyOf(id));
  }

  lemma RowEnds(db: Db, id: DeliveryId)
    requires Inv(db) && id in db.deliveries
    ensures id.due <= db.deliveries[id].end
  {
    assert RowInv(db, id, db.deliveries[id]);
    var ws := db.schedules[id.schedule].windows;
    var i :| Refers(ws, i, id, db.deliveries[id].end);
    assert TileAt(ws, i);
  }

  /**
   Key adoption does not look at the lease. A second claimer that presents another key breaks the
   holder's finalize exactly when that key is free, because the row then takes it.
   */
  lemma AdoptionBreaksHolderExactlyWhenKeyIsFree(db: Db, lag: nat, id: DeliveryId, key: string, sentAt: Option<Time>)
    requires FlowInv(db) && id in db.deliveries && LeaseLive(db.deliveries[id], db.clock)
    ensures var d := db.deliveries[id];
      Finalize(Claim(db, lag, id, d.end, key).0, id, d.end, d.key, d.token, d.attempts, sentAt).1 == Finalized
      <==> key == d.key || KeyOwner(db.deliveries, key).Some?
  {
    hide Inv, Work, CompleteWindow, Claim, ActiveInPending;
    var d := db.deliveries[id];
    RowOf(db, id);
    RowEnds(db, id);
    KeysOf(db);
    ActiveLocks(db, id);
    var next := Claim(db, lag, id, d.end, key).0;
    var adopted := AdoptKey(db, id, d.end, key);
    LiveClaimOnlyAdopts(db, lag, id, key);
    CompleteTouches(adopted, id, d.end);
    ClaimKeepsFlow(db, lag, id, d.end, key);
    ActiveLocks(next, id);
  }

  lemma ActiveLocks(db: Db, id: DeliveryId)
    requires ActiveInPending(db) && id in db.deliveries && Active(db.deliveries[id])
    ensures LockPending(db, id.schedule, id.due, db.deliveries[id].end).Some?
  {
    assert PendingIfActive(db, id);
  }

  /** A claim that meets a live lease does no more than adopt a key. */
  lemma LiveClaimOnlyAdopts(db: Db, lag: nat, id: DeliveryId, key: string)
    requires KeysUnique(db.deliveries) && id in db.deliveries && LeaseLive(db.deliveries[id], db.clock)
    requires LockPending(db, id.schedule, id.due, db.deliveries[id].end).Some?
    requires id.due <= db.deliveries[id].end
    ensures var end := db.deliveries[id].end;
      Claim(db, lag, id, end, key).0 == CompleteWindow(AdoptKey(db, id, end, key), id.schedule, id.due, end)
  {
    hide CompleteWindow;
    var adopted := AdoptKey(db, id, db.deliveries[id].end, key);
    assert id in adopted.deliveries;
    assert KeyOwner(db.deliveries, key) == None ==> adopted.deliveries[id].key == key;
    assert KeyOwner(adopted.deliveries, key).Some?;
  }

  /** The no-op completion waits exactly while some claim of the window cannot be taken over. */
  lemma NoopDefersExactlyWhileHeld(db: Db, s: Id, due: Time, end: Time)
    requires LockPending(db, s, due, end).Some? && due <= end
    ensures CompleteNoop(db, s, due, end).1 == Deferred
      <==> exists id <- db.deliveries :: var d := db.deliveries[id];
        InWindow(id, d, s, due, end) && d.status == Sending && !Claimable(d, db.clock)
  {
    forall id | id in db.deliveries && db.deliveries[id].status == Sending
      ensures Claimable(db.deliveries[id], db.clock) <==> !LeaseLive(db.deliveries[id], db.clock)
    {
    }
  }

  // ---- counting ----

  function Attempts(db: Db, id: DeliveryId): nat {
    if id in db.deliveries then db.deliveries[id].attempts else 0
  }

  function SentMark(db: Db, id: DeliveryId): nat {
    if id in db.deliveries && db.deliveries[id].status == Sent then 1 else 0
  }

  ghost function GrantAt(db: Db, a: Action, id: DeliveryId): nat {
    if a.DoClaim? && a.id == id && Step(db, a).1.Claimed? then 1 else 0
  }

  ghost function SendAt(db: Db, a: Action, id: DeliveryId): nat {
    if a.DoFinalize? && a.id == id && a.sentAt.Some? && Step(db, a).1 == Finalized then 1 else 0
  }

  /** The claims granted for a delivery in a run. */
  ghost function ClaimsGranted(db: Db, run: seq<Action>, id: DeliveryId): nat
    decreases |run|
  {
    if run == [] then 0 else GrantAt(db, run[0], id) + ClaimsGranted(Step(db, run[0]).0, run[1..], id)
  }

  /** The successful FinalizeSent calls for a delivery in a run. */
  ghost function SendsRecorded(db: Db, run: seq<Action>, id: DeliveryId): nat
    decreases |run|
  {
    if run == [] then 0 else SendAt(db, run[0], id) + SendsRecorded(Step(db, run[0]).0, run[1..], id)
  }

  lemma ClaimCounts(db: Db, lag: nat, id: DeliveryId, end: Time, key: string)
    requires Inv(db)
    ensures var (next, outcome) := Claim(db, lag, id, end, key);
      && Attempts(next, id) == Attempts(db, id) + (if outcome.Claimed? then 1 else 0)
      && SentMark(next, id) == SentMark(db, id)
  {
    hide CompleteWindow, Inv, Claim;
    ClaimShape(db, lag, id, end, key);
    var adopted := AdoptKey(db, id, end, key);
    CompleteTouches(adopted, id, end);
    if id in adopted.deliveries {
      RowOf(db, id);
      var again := Reclaimed(adopted.deliveries[id], db.clock - lag, db.nextToken);
      CompleteTouches(Put(adopted, id, again).(nextToken := db.nextToken + 1), id, end);
    }
  }

  lemma StepCounts(db: Db, a: Action, id: DeliveryId)
    requires Inv(db)
    ensures Attempts(Step(db, a).0, id) == Attempts(db, id) + GrantAt(db, a, id)
    ensures SentMark(Step(db, a).0, id) == SentMark(db, id) + SendAt(db, a, id)
  {
    hide Inv, CompleteWindow;
    match a
    case Tick(_) =>
    case NewSchedule(_) =>
    case Open(_, _, _, _, _, _, _) =>
    case DoClaim(lag, other, end, key) =>
      if other == id {
        ClaimCounts(db, lag, id, end, key);
      } else {
        KeysOf(db);
        ClaimTouchesOwnRow(db, lag, other, end, key);
        assert SameRow(db, Step(db, a).0, id);
      }
    case DoFinalize(other, end, _, _, _, sentAt) =>
      FinalizeTouchesOwnRow(db, a);
      if other != id {
        assert SameRow(db, Step(db, a).0, id);
      } else if Step(db, a).1 == Finalized {
        var d := db.deliveries[id];
        var settled := if sentAt.Some? then d.(status := Sent, sentAt := sentAt) else d.(status := Failed);
        CompleteTouches(Put(db, id, settled), id, end);
      }
    case Noop(s, due, end) => CloseKeepsDeliveries(db, s, due, end);
    case ReportClose(_, _, _) =>
  }

  /**
   Over any run of either flow a delivery's attempts are the claims granted for it, so there are at
   most three, and its being sent is the one successful FinalizeSent.
   */
  lemma {:induction false} AttemptsAreGrants(db: Db, run: seq<Action>, id: DeliveryId)
    requires Inv(db)
    ensures Attempts(Run(db, run), id) == Attempts(db, id) + ClaimsGranted(db, run, id)
    ensures SentMark(Run(db, run), id) == SentMark(db, id) + SendsRecorded(db, run, id)
    ensures Attempts(db, id) + ClaimsGranted(db, run, id) <= MAX_ATTEMPTS
    ensures SentMark(db, id) + SendsRecorded(db, run, id) <= 1
    decreases |run|
  {
    hide Inv, Step;
    if run == [] {
      if id in db.deliveries {
        RowOf(db, id);
      }
    } else {
      StepCounts(db, run[0], id);
      StepKeepsInv(db, run[0]);
      AttemptsAreGrants(Step(db, run[0]).0, run[1..], id);
    }
  }

  // ---- terminal rows and windows ----

  lemma SentSurvivesStep(db: Db, a: Action, id: DeliveryId)
    requires Inv(db) && id in db.deliveries && db.deliveries[id].status == Sent
    ensures id in Step(db, a).0.deliveries && SameButKey(db.deliveries[id], Step(db, a).0.deliveries[id])
  {
    hide Inv, CompleteWindow;
    match a
    case Tick(_) =>
    case NewSchedule(_) =>
    case Open(_, _, _, _, _, _, _) =>
    case DoClaim(lag, other, end, key) =>
      KeysOf(db);
      ClaimTouchesOwnRow(db, lag, other, end, key);
      CompleteTouches(AdoptKey(db, other, end, key), other, end);
      assert other != id ==> SameRow(db, Step(db, a).0, id);
    case DoFinalize(other, _, _, _, _, _) =>
      FinalizeTouchesOwnRow(db, a);
      assert other != id ==> SameRow(db, Step(db, a).0, id);
    case Noop(s, due, end) => CloseKeepsDeliveries(db, s, due, end);
    case ReportClose(_, _, _) =>
  }

  /** A sent delivery stays as it is for ever, in either flow. */
  lemma {:induction false} SentIsFinal(db: Db, run: seq<Action>, id: DeliveryId)
    requires Inv(db) && id in db.deliveries && db.deliveries[id].status == Sent
    ensures id in Run(db, run).deliveries && SameButKey(db.deliveries[id], Run(db, run).deliveries[id])
    decreases |run|
  {
    hide Inv, Step;
    if run != [] {
      SentSurvivesStep(db, run[0], id);
      StepKeepsInv(db, run[0]);
      SentIsFinal(Step(db, run[0]).0, run[1..], id);
    }
  }

  /** The rows of window k of schedule s are those of its due time. */
  ghost predicate Frozen(db: Db, db': Db, s: Id, due: Time) {
    forall r: Id :: SameRow(db, db', DeliveryId(s, r, due))
  }

  lemma TouchesElsewhere(db: Db, db': Db, id: DeliveryId, s: Id, k: nat)
    requires OnlyTouches(db, db', id) && s in db.schedules && k < |db.schedules[s].windows|
    requires id.schedule != s || id.due != db.schedules[s].windows[k].due
    ensures SameWindow(db, db', s, k) && Frozen(db, db', s, db.schedules[s].windows[k].due)
  {
    var due := db.schedules[s].windows[k].due;
    assert !(s == id.schedule && DueAt(db, s, k, id.due));
    forall r: Id ensures SameRow(db, db', DeliveryId(s, r, due)) {
      assert DeliveryId(s, r, due) != id;
    }
  }

  lemma TerminalStep(db: Db, a: Action, s: Id, k: nat)
    requires Inv(db)
    requires s in db.schedules && k < |db.schedules[s].windows| && db.schedules[s].windows[k].status != WindowPending
    ensures SameWindow(db, Step(db, a).0, s, k) || a.ReportClose?
    ensures Frozen(db, Step(db, a).0, s, db.schedules[s].windows[k].due)
  {
    hide Inv, CompleteWindow, OnlyTouches;
    ScheduleOf(db, s);
    KeysOf(db);
    var w := db.schedules[s].windows[k];
    FindsIt(db.schedules[s].windows, k);
    match a
    case Tick(_) =>
    case NewSchedule(_) =>
    case Open(_, _, _, _, _, _, _) =>
    case DoClaim(lag, id, end, key) =>
      ClaimTouchesOwnRow(db, lag, id, end, key);
      if id.schedule == s && id.due == w.due {
        NotPendingAt(db, s, k, end);
        assert Step(db, a).0 == db;
      } else {
        TouchesElsewhere(db, Step(db, a).0, id, s, k);
      }
    case DoFinalize(id, end, _, _, _, _) =>
      FinalizeTouchesOwnRow(db, a);
      if id.schedule == s && id.due == w.due {
        NotPendingAt(db, s, k, end);
        assert Step(db, a).0 == db;
      } else {
        TouchesElsewhere(db, Step(db, a).0, id, s, k);
      }
    case Noop(t, due, end) =>
      if t == s && due == w.due {
        NotPendingAt(db, s, k, end);
      }
    case ReportClose(_, _, _) =>
  }

  lemma NotPendingAt(db: Db, s: Id, k: nat, end: Time)
    requires s in db.schedules && ScheduleInv(db.schedules[s])
    requires k < |db.schedules[s].windows| && db.schedules[s].windows[k].status != WindowPending
    ensures LockPending(db, s, db.schedules[s].windows[k].due, end) == None
    ensures var i := FindWindow(db.schedules[s].windows, db.schedules[s].windows[k].due, end); i.Some? ==> i.value == k
  {
    var ws := db.schedules[s].windows;
    var i := FindWindow(ws, ws[k].due, end);
    if i.Some? {
      DueIsUnique(ws, i.value, k);
    }
  }

  /**
   In the mail flow a closed window is final: its row never changes again, its deliveries are all
   sent or failed, and none of them is changed, added or removed by any later step.
   */
  lemma {:induction false} TerminalWindowIsFinal(db: Db, run: seq<Action>, s: Id, k: nat)
    requires FlowInv(db) && DeliveryFlow(run)
    requires s in db.schedules && k < |db.schedules[s].windows| && db.schedules[s].windows[k].status != WindowPending
    ensures SameWindow(db, Run(db, run), s, k)
    ensures Frozen(db, Run(db, run), s, db.schedules[s].windows[k].due)
    ensures forall r: Id :: var id := DeliveryId(s, r, db.schedules[s].windows[k].due);
      id in Run(db, run).deliveries ==> Run(db, run).deliveries[id].status in {Sent, Failed}
    decreases |run|
  {
    hide Inv, Work, ActiveInPending, Step;
    if run == [] {
      TerminalRows(db, s, k);
    } else {
      assert run[0] in run;
      var next := Step(db, run[0]).0;
      TerminalStep(db, run[0], s, k);
      StepKeepsFlow(db, run[0]);
      TerminalWindowIsFinal(next, run[1..], s, k);
      forall r: Id
        ensures SameRow(db, Run(db, run), DeliveryId(s, r, db.schedules[s].windows[k].due))
      {
        var id := DeliveryId(s, r, db.schedules[s].windows[k].due);
        assert SameRow(db, next, id) && SameRow(next, Run(next, run[1..]), id);
      }
    }
  }

  lemma TerminalRows(db: Db, s: Id, k: nat)
    requires FlowInv(db)
    requires s in db.schedules && k < |db.schedules[s].windows| && db.schedules[s].windows[k].status != WindowPending
    ensures forall r: Id :: var id := DeliveryId(s, r, db.schedules[s].windows[k].due);
      id in db.deliveries ==> db.deliveries[id].status in {Sent, Failed}
  {
    var w := db.schedules[s].windows[k];
    forall r: Id | DeliveryId(s, r, w.due) in db.deliveries
      ensures db.deliveries[DeliveryId(s, r, w.due)].status in {Sent, Failed}
    {
      var id := DeliveryId(s, r, w.due);
      assert PendingIfActive(db, id);
      NotPendingAt(db, s, k, db.deliveries[id].end);
    }
  }

  /** In the mail flow a pending window that has recipients always has one left to serve. */
  lemma PendingWindowHasWork(run: seq<Action>, s: Id, k: nat) returns (r: Id)
    requires DeliveryFlow(run)
    requires s in Run(EMPTY, run).schedules && k < |Run(EMPTY, run).schedules[s].windows|
    requires var w := Run(EMPTY, run).schedules[s].windows[k]; w.status == WindowPending && w.recipients != {}
    ensures var db := Run(EMPTY, run); var w := db.schedules[s].windows[k]; var id := DeliveryId(s, r, w.due);
      r in w.recipients
      && !(id in db.deliveries && (db.deliveries[id].status == Sent
           || (db.deliveries[id].status == Failed && db.deliveries[id].attempts == MAX_ATTEMPTS)))
  {
    RunKeepsFlow(EMPTY, run);
    var db := Run(EMPTY, run);
    var w := db.schedules[s].windows[k];
    assert WorkAt(db, s, k);
    r :| r in w.recipients && !(RecipientSent(db, s, w, r) || RecipientExhausted(db, s, w, r));
    var id := DeliveryId(s, r, w.due);
    if id in db.deliveries {
      RowWindow(db, id, k);
      assert RowInv(db, id, db.deliveries[id]);
    }
  }
}
