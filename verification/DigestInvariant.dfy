/** What every transaction of either flow keeps: the shape of the windows and of the delivery rows. */
module DigestInvariant {
  import opened Basics
  import opened DigestModel
  import DueTimes

  /** The end of the window created before window i. */
  function PreviousEnd(ws: seq<Window>, i: nat): Option<Time>
    requires i <= |ws|
  {
    if i == 0 then None else Some(ws[i - 1].end)
  }

  /** The end up to which the schedule has been served. */
  function Served(ws: seq<Window>): Option<Time> {
    if ws != [] && ws[|ws| - 1].status == WindowPending then PreviousEnd(ws, |ws| - 1) else PreviousEnd(ws, |ws|)
  }

  /** Window i starts where the one before it ended, is due after that, and ends no earlier than it is due. */
  ghost predicate TileAt(ws: seq<Window>, i: int)
    requires 0 <= i < |ws|
  {
    && ws[i].due <= ws[i].end
    && ws[i].since == PreviousEnd(ws, i)
    && After(ws[i].since, ws[i].due)
    && ItemsInInterval(ws[i])
    && (i < |ws| - 1 ==> ws[i].status != WindowPending)
  }

  ghost predicate WindowsTile(ws: seq<Window>) {
    forall i :: 0 <= i < |ws| ==> TileAt(ws, i)
  }

  ghost predicate ItemsInInterval(w: Window) {
    forall m <- w.items :: After(w.since, m.createdAt) && m.createdAt <= w.end
  }

  ghost predicate ScheduleInv(sc: Schedule) {
    && WindowsTile(sc.windows)
    && sc.lastSuccess == Served(sc.windows)
  }

  /** The window that a delivery row refers to, by its foreign keys. */
  ghost predicate Refers(ws: seq<Window>, i: int, id: DeliveryId, end: Time) {
    0 <= i < |ws| && ws[i].due == id.due && ws[i].end == end && id.recipient in ws[i].recipients
  }

  ghost predicate RowInv(db: Db, id: DeliveryId, d: Delivery) {
    && id.schedule in db.schedules
    && (exists i :: Refers(db.schedules[id.schedule].windows, i, id, d.end))
    && d.attempts <= MAX_ATTEMPTS
    && (d.status == Sending ==> d.attempts >= 1)
    && d.token < db.nextToken
    && d.claimedAt <= db.clock
  }

  ghost predicate KeysUnique(ds: map<DeliveryId, Delivery>) {
    forall a, b :: a in ds && b in ds && ds[a].key == ds[b].key ==> a == b
  }

  ghost predicate Inv(db: Db) {
    && (forall s <- db.schedules :: ScheduleInv(db.schedules[s]))
    && (forall id <- db.deliveries :: RowInv(db, id, db.deliveries[id]))
    && KeysUnique(db.deliveries)
  }

  lemma RowOf(db: Db, id: DeliveryId)
    requires Inv(db) && id in db.deliveries
    ensures RowInv(db, id, db.deliveries[id])
  {
  }

  lemma ScheduleOf(db: Db, s: Id)
    requires Inv(db) && s in db.schedules
    ensures ScheduleInv(db.schedules[s])
  {
  }

  lemma KeysOf(db: Db)
    requires Inv(db)
    ensures KeysUnique(db.deliveries)
  {
  }

  // ---- windows are ordered, and found by their due time ----

  lemma {:induction false} WindowsOrdered(ws: seq<Window>, i: nat, j: nat)
    requires WindowsTile(ws)
    requires i < j < |ws|
    ensures ws[i].end < ws[j].due
    decreases j
  {
    assert TileAt(ws, j);
    if i < j - 1 {
      WindowsOrdered(ws, i, j - 1);
      assert TileAt(ws, j - 1);
    }
  }

  lemma DueIsUnique(ws: seq<Window>, i: nat, j: nat)
    requires WindowsTile(ws)
    requires i < |ws| && j < |ws| && ws[i].due == ws[j].due
    ensures i == j
  {
    assert TileAt(ws, i) && TileAt(ws, j);
    if i < j {
      WindowsOrdered(ws, i, j);
    } else if j < i {
      WindowsOrdered(ws, j, i);
    }
  }

  lemma PendingIsLast(ws: seq<Window>, i: nat)
    requires WindowsTile(ws)
    requires i < |ws| && ws[i].status == WindowPending
    ensures i == |ws| - 1
  {
    assert TileAt(ws, i);
  }

  /** A schedule may be replaced by one that keeps the identity and recipients of its windows. */
  lemma UpdateScheduleKeepsInv(db: Db, s: Id, sc: Schedule)
    requires Inv(db) && s in db.schedules
    requires ScheduleInv(sc)
    requires |db.schedules[s].windows| <= |sc.windows|
    requires forall i :: 0 <= i < |db.schedules[s].windows| ==>
      var w, w' := db.schedules[s].windows[i], sc.windows[i];
      w'.due == w.due && w'.end == w.end && w'.recipients == w.recipients
    ensures Inv(db.(schedules := db.schedules[s := sc]))
  {
    var db' := db.(schedules := db.schedules[s := sc]);
    forall id | id in db'.deliveries
      ensures RowInv(db', id, db'.deliveries[id])
    {
      var d := db.deliveries[id];
      assert RowInv(db, id, d);
      var k :| Refers(db.schedules[id.schedule].windows, k, id, d.end);
      assert Refers(db'.schedules[id.schedule].windows, k, id, d.end);
    }
  }

  // ---- closing a window ----

  lemma CloseKeepsSchedule(sc: Schedule, i: nat, status: WindowStatus)
    requires ScheduleInv(sc) && i < |sc.windows|
    requires status != WindowPending
    ensures ScheduleInv(Schedule(Some(Greatest(sc.lastSuccess, sc.windows[i].end)),
                                 sc.windows[i := sc.windows[i].(status := status)]))
  {
    var ws := sc.windows;
    var ws' := ws[i := ws[i].(status := status)];
    forall k | 0 <= k < |ws'|
      ensures TileAt(ws', k)
    {
      assert TileAt(ws, k);
      assert k > 0 ==> ws'[k - 1].end == ws[k - 1].end;
    }
    var last := |ws| - 1;
    assert TileAt(ws, last);
    if i < last {
      WindowsOrdered(ws, i, last);
      if ws[last].status == WindowPending && i < last - 1 {
        WindowsOrdered(ws, i, last - 1);
        assert TileAt(ws, last - 1);
      }
    }
  }

  lemma CloseKeepsInv(db: Db, s: Id, i: nat, status: WindowStatus)
    requires Inv(db)
    requires s in db.schedules && i < |db.schedules[s].windows|
    requires status != WindowPending
    ensures Inv(CloseWindow(db, s, i, status))
  {
    CloseKeepsSchedule(db.schedules[s], i, status);
    UpdateScheduleKeepsInv(db, s, CloseWindow(db, s, i, status).schedules[s]);
  }

  lemma CompleteKeepsInv(db: Db, s: Id, due: Time, end: Time)
    requires Inv(db)
    ensures Inv(CompleteWindow(db, s, due, end))
  {
    var i := LockPending(db, s, due, end);
    if i.Some? {
      CloseKeepsInv(db, s, i.value, WindowCompleted);
      CloseKeepsInv(db, s, i.value, WindowFailed);
    }
  }

  // ---- opening a window ----

  lemma OpenKeepsSchedule(sc: Schedule, w: Window)
    requires ScheduleInv(sc)
    requires FindPending(sc.windows) == None
    requires w.status == WindowPending && w.due <= w.end && w.since == sc.lastSuccess
    requires After(w.since, w.due) && ItemsInInterval(w)
    ensures ScheduleInv(sc.(windows := sc.windows + [w]))
  {
    var ws := sc.windows;
    var ws' := ws + [w];
    forall k | 0 <= k < |ws'|
      ensures TileAt(ws', k)
    {
      assert k > 0 ==> ws'[k - 1] == ws[k - 1];
      if k < |ws| {
        assert TileAt(ws, k) && ws'[k] == ws[k];
      }
    }
  }

  lemma OpenKeepsInv(db: Db, a: Action)
    requires Inv(db) && a.Open?
    ensures Inv(Step(db, a).0)
  {
    var db' := Step(db, a).0;
    if db' != db {
      var sc := db.schedules[a.s];
      var sc' := db'.schedules[a.s];
      OpenKeepsSchedule(sc, sc'.windows[|sc.windows|]);
      UpdateScheduleKeepsInv(db, a.s, sc');
    }
  }

  /** A new due slot is after every earlier window, so the insert never meets an existing row. */
  lemma NewDueIsFresh(sc: Schedule, now: Time, hour: int, minute: int, weekdays: seq<int>)
    requires ScheduleInv(sc)
    requires FindPending(sc.windows) == None
    ensures var due := DueTimes.LatestDue(now, sc.lastSuccess, hour, minute, weekdays);
      due.Some? ==> FindDue(sc.windows, due.value) == None
  {
    var ws := sc.windows;
    forall i | 0 <= i < |ws|
      ensures ws[i].due <= sc.lastSuccess.value
    {
      assert TileAt(ws, i) && TileAt(ws, |ws| - 1);
      if i < |ws| - 1 {
        WindowsOrdered(ws, i, |ws| - 1);
      }
    }
  }

  // ---- changing one delivery ----

  /** A row may be written when its window exists and nobody else owns its key. */
  lemma PutKeepsInv(db: Db, id: DeliveryId, d: Delivery)
    requires Inv(db)
    requires RowInv(db, id, d)
    requires forall other <- db.deliveries :: db.deliveries[other].key == d.key ==> other == id
    ensures Inv(Put(db, id, d))
  {
    var db' := Put(db, id, d);
    forall o | o in db'.deliveries
      ensures RowInv(db', o, db'.deliveries[o])
    {
      assert o != id ==> RowInv(db, o, db.deliveries[o]);
    }
  }

  lemma NextTokenKeepsInv(db: Db)
    requires Inv(db)
    ensures Inv(db.(nextToken := db.nextToken + 1))
  {
    var db' := db.(nextToken := db.nextToken + 1);
    forall o | o in db'.deliveries
      ensures RowInv(db', o, db'.deliveries[o])
    {
      assert RowInv(db, o, db.deliveries[o]);
    }
  }

  lemma AdoptKeepsInv(db: Db, id: DeliveryId, end: Time, key: string)
    requires Inv(db)
    ensures Inv(AdoptKey(db, id, end, key))
  {
    if AdoptKey(db, id, end, key) != db {
      PutKeepsInv(db, id, db.deliveries[id].(key := key));
    }
  }

  /** A row may be rewritten under its own key and window, perhaps with a new token. */
  lemma RewriteKeepsInv(db: Db, id: DeliveryId, d: Delivery, nextToken: nat)
    requires Inv(db) && id in db.deliveries
    requires d.key == db.deliveries[id].key && d.end == db.deliveries[id].end
    requires d.attempts <= MAX_ATTEMPTS && (d.status == Sending ==> d.attempts >= 1)
    requires db.nextToken <= nextToken <= db.nextToken + 1
    requires d.token < nextToken && d.claimedAt <= db.clock
    ensures Inv(Put(db, id, d).(nextToken := nextToken))
  {
    NextTokenKeepsInv(db);
    var counted := db.(nextToken := nextToken);
    assert RowInv(counted, id, db.deliveries[id]);
    PutKeepsInv(counted, id, d);
    assert Put(db, id, d).(nextToken := nextToken) == Put(counted, id, d);
  }

  lemma InsertKeepsInv(db: Db, now: Time, id: DeliveryId, end: Time, key: string, i: nat)
    requires Inv(db) && now <= db.clock && id.schedule in db.schedules
    requires i < |db.schedules[id.schedule].windows|
    requires db.schedules[id.schedule].windows[i].due == id.due && db.schedules[id.schedule].windows[i].end == end
    requires KeyOwner(db.deliveries, key) == None
    ensures Inv(InsertClaim(db, now, id, end, key, db.schedules[id.schedule].windows[i].recipients).0)
  {
    var r := InsertClaim(db, now, id, end, key, db.schedules[id.schedule].windows[i].recipients);
    if r.1.Claimed? {
      NextTokenKeepsInv(db);
      var counted := db.(nextToken := db.nextToken + 1);
      assert Refers(counted.schedules[id.schedule].windows, i, id, end);
      PutKeepsInv(counted, id, r.0.deliveries[id]);
      assert r.0 == Put(counted, id, r.0.deliveries[id]);
    }
  }

  lemma RenewKeepsInv(db: Db, now: Time, id: DeliveryId, end: Time)
    requires Inv(db) && now <= db.clock && id in db.deliveries
    ensures Inv(RenewClaim(db, now, id, end).0)
  {
    var d := db.deliveries[id];
    if d.end == end && Claimable(d, now) {
      var d' := Reclaimed(d, now, db.nextToken);
      var renewed := Put(db, id, d').(nextToken := db.nextToken + 1);
      assert RowInv(db, id, d);
      RewriteKeepsInv(db, id, d', db.nextToken + 1);
      CompleteKeepsInv(renewed, id.schedule, id.due, end);
      assert RenewClaim(db, now, id, end).0 ==
        if d'.status == Sending then renewed else CompleteWindow(renewed, id.schedule, id.due, end);
    } else {
      CompleteKeepsInv(db, id.schedule, id.due, end);
    }
  }

  lemma UpsertKeepsInv(db: Db, now: Time, id: DeliveryId, end: Time, key: string, i: nat)
    requires Inv(db) && now <= db.clock && id.schedule in db.schedules
    requires i < |db.schedules[id.schedule].windows|
    requires db.schedules[id.schedule].windows[i].due == id.due && db.schedules[id.schedule].windows[i].end == end
    ensures Inv(Upsert(db, now, id, end, key, db.schedules[id.schedule].windows[i].recipients).0)
  {
    var owner := KeyOwner(db.deliveries, key);
    if owner.None? {
      InsertKeepsInv(db, now, id, end, key, i);
    } else if owner.value == id {
      RenewKeepsInv(db, now, id, end);
    } else {
      CompleteKeepsInv(db, id.schedule, id.due, end);
    }
  }

  lemma ClaimKeepsInv(db: Db, lag: nat, id: DeliveryId, end: Time, key: string)
    requires Inv(db)
    ensures Inv(Claim(db, lag, id, end, key).0)
  {
    hide Inv, Upsert;
    var locked := LockPending(db, id.schedule, id.due, end);
    if end >= id.due && locked.Some? {
      var adopted := AdoptKey(db, id, end, key);
      var recipients := db.schedules[id.schedule].windows[locked.value].recipients;
      AdoptKeepsInv(db, id, end, key);
      UpsertKeepsInv(adopted, db.clock - lag, id, end, key, locked.value);
      assert Claim(db, lag, id, end, key) == Upsert(adopted, db.clock - lag, id, end, key, recipients);
    }
  }

  lemma FinalizeKeepsInv(db: Db, a: Action)
    requires Inv(db) && a.DoFinalize?
    ensures Inv(Step(db, a).0)
  {
    if Step(db, a).1 == Finalized {
      var d := db.deliveries[a.id];
      assert RowInv(db, a.id, d);
      var d' := if a.sentAt.Some? then d.(status := Sent, sentAt := a.sentAt) else d.(status := Failed);
      RewriteKeepsInv(db, a.id, d', db.nextToken);
      CompleteKeepsInv(Put(db, a.id, d'), a.id.schedule, a.id.due, a.end);
    }
  }

  lemma CancelKeepsInv(db: Db, s: Id, due: Time, end: Time)
    requires Inv(db)
    ensures Inv(db.(deliveries := CancelUnsent(db.deliveries, s, due, end)))
  {
    var db' := db.(deliveries := CancelUnsent(db.deliveries, s, due, end));
    forall id | id in db'.deliveries
      ensures RowInv(db', id, db'.deliveries[id])
    {
      assert RowInv(db, id, db.deliveries[id]);
    }
    forall a, b | a in db'.deliveries && b in db'.deliveries && db'.deliveries[a].key == db'.deliveries[b].key
      ensures a == b
    {
      assert db.deliveries[a].key == db.deliveries[b].key;
    }
  }

  lemma NoopKeepsInv(db: Db, s: Id, due: Time, end: Time)
    requires Inv(db)
    ensures Inv(CompleteNoop(db, s, due, end).0)
  {
    if CompleteNoop(db, s, due, end).0 != db {
      CancelKeepsInv(db, s, due, end);
      var cancelled := db.(deliveries := CancelUnsent(db.deliveries, s, due, end));
      CloseKeepsInv(cancelled, s, FindWindow(db.schedules[s].windows, due, end).value, WindowCompleted);
    }
  }

  lemma StepKeepsInv(db: Db, a: Action)
    requires Inv(db)
    ensures Inv(Step(db, a).0)
  {
    match a
    case Tick(elapsed) =>
      var db' := Step(db, a).0;
      forall id | id in db'.deliveries ensures RowInv(db', id, db'.deliveries[id]) {
        assert RowInv(db, id, db.deliveries[id]);
      }
    case NewSchedule(s) =>
      var db' := Step(db, a).0;
      forall id | id in db'.deliveries ensures RowInv(db', id, db'.deliveries[id]) {
        assert RowInv(db, id, db.deliveries[id]);
      }
    case Open(_, _, _, _, _, _, _) => OpenKeepsInv(db, a);
    case DoClaim(lag, id, end, key) => ClaimKeepsInv(db, lag, id, end, key);
    case DoFinalize(_, _, _, _, _, _) => FinalizeKeepsInv(db, a);
    case Noop(s, due, end) => NoopKeepsInv(db, s, due, end);
    case ReportClose(s, due, end) =>
      if Step(db, a).1 == Closed {
        CloseKeepsInv(db, s, FindWindow(db.schedules[s].windows, due, end).value, WindowCompleted);
      }
  }

  lemma {:induction false} RunKeepsInv(db: Db, run: seq<Action>)
    requires Inv(db)
    ensures Inv(Run(db, run))
    decreases |run|
  {
    if run != [] {
      StepKeepsInv(db, run[0]);
      RunKeepsInv(Step(db, run[0]).0, run[1..]);
    }
  }
}
