/** When a delivery is granted, what every operation leaves behind, and how a failing delivery ends. */
module DigestClaims {
  import opened Basics
  import opened DigestModel
  import opened DigestInvariant
  import opened DigestDelivery
  import opened DigestTheorems
  import DueTimes

  /** Window i of the schedule is this one, and pending. */
  ghost predicate PendingAt(db: Db, s: Id, i: int, due: Time, end: Time) {
    && s in db.schedules && 0 <= i < |db.schedules[s].windows|
    && var w := db.schedules[s].windows[i];
    && w.due == due && w.end == end && w.status == WindowPending
  }

  lemma LocksIt(db: Db, s: Id, i: nat, due: Time, end: Time)
    requires Inv(db) && PendingAt(db, s, i, due, end)
    ensures LockPending(db, s, due, end) == Some(i) && due <= end
  {
    ScheduleOf(db, s);
    FindsIt(db.schedules[s].windows, i);
    assert TileAt(db.schedules[s].windows, i);
  }

  lemma LockedIsPending(db: Db, s: Id, due: Time, end: Time)
    ensures var i := LockPending(db, s, due, end); i.Some? ==> PendingAt(db, s, i.value, due, end)
  {
  }

  // ---- claims ----

  /** No delivery but this one has the key. */
  ghost predicate OwnOrFree(ds: map<DeliveryId, Delivery>, id: DeliveryId, key: string) {
    forall o <- ds :: ds[o].key == key ==> o == id
  }

  /** The row after a grant: one more attempt, under the caller's key, with a new token. */
  function GrantedRow(db: Db, lag: nat, id: DeliveryId, end: Time, key: string): Delivery {
    var before := if id in db.deliveries then db.deliveries[id].attempts else 0;
    Delivery(key, end, Sending, before + 1, db.clock - lag, db.nextToken, None)
  }

  /**
   A claim on a pending window is granted exactly when no other delivery has the key and the delivery
   is new and one of the window's recipients, or has attempts left and is waiting, failed, or sending
   for longer than the lease. A grant writes its own row and nothing else.
   */
  lemma ClaimGrantedExactly(db: Db, lag: nat, id: DeliveryId, end: Time, key: string, i: nat)
    requires Inv(db) && PendingAt(db, id.schedule, i, id.due, end)
    ensures var (next, outcome) := Claim(db, lag, id, end, key);
      && (outcome.Claimed? <==>
            && OwnOrFree(db.deliveries, id, key)
            && if id !in db.deliveries then id.recipient in db.schedules[id.schedule].windows[i].recipients
               else
                 var d := db.deliveries[id];
                 && d.attempts < 3
                 && (d.status == Waiting || d.status == Failed
                     || (d.status == Sending && d.claimedAt + LEASE < db.clock - lag)))
      && (outcome.Claimed? ==>
            var d := GrantedRow(db, lag, id, end, key);
            && outcome == Claimed(d.attempts, db.nextToken)
            && next == db.(deliveries := db.deliveries[id := d], nextToken := db.nextToken + 1))
  {
    hide CompleteWindow, Inv;
    LocksIt(db, id.schedule, i, id.due, end);
    KeysOf(db);
    if id in db.deliveries {
      RowOf(db, id);
      RowWindow(db, id, i);
      OwnerAfterAdoption(db, id, end, key);
    } else {
      OwnerOfOther(db.deliveries, id, key);
    }
  }

  lemma OwnerOfOther(ds: map<DeliveryId, Delivery>, id: DeliveryId, key: string)
    requires id !in ds
    ensures KeyOwner(ds, key).None? <==> OwnOrFree(ds, id, key)
  {
  }

  lemma OwnerAfterAdoption(db: Db, id: DeliveryId, end: Time, key: string)
    requires KeysUnique(db.deliveries) && id in db.deliveries && db.deliveries[id].end == end
    ensures var adopted := AdoptKey(db, id, end, key);
      && KeyOwner(adopted.deliveries, key).Some?
      && (KeyOwner(adopted.deliveries, key).value == id <==> OwnOrFree(db.deliveries, id, key))
      && (OwnOrFree(db.deliveries, id, key) ==> adopted == Put(db, id, db.deliveries[id].(key := key)))
      && (!OwnOrFree(db.deliveries, id, key) ==> adopted == db)
  {
    var adopted := AdoptKey(db, id, end, key);
    var owner := KeyOwner(db.deliveries, key);
    if owner.None? {
      assert adopted.deliveries[id].key == key;
      assert KeyOwner(adopted.deliveries, key).Some?;
    } else if owner.value == id {
      assert Put(db, id, db.deliveries[id].(key := key)) == db;
    }
  }

  /** Without its pending window a claim changes nothing. */
  lemma ClaimNeedsItsWindow(db: Db, lag: nat, id: DeliveryId, end: Time, key: string)
    requires forall i :: !PendingAt(db, id.schedule, i, id.due, end)
    ensures Claim(db, lag, id, end, key).0 == db && !Claim(db, lag, id, end, key).1.Claimed?
  {
    LockedIsPending(db, id.schedule, id.due, end);
  }

  /** A third attempt whose lease has run out is not granted again: the claim records it as failed. */
  lemma ExpiredThirdAttemptFails(db: Db, lag: nat, id: DeliveryId, end: Time, key: string, i: nat)
    requires Inv(db) && PendingAt(db, id.schedule, i, id.due, end)
    requires id in db.deliveries && OwnOrFree(db.deliveries, id, key)
    requires var d := db.deliveries[id];
      d.status == Sending && d.attempts >= 3 && d.claimedAt + LEASE < db.clock - lag
    ensures var next := Claim(db, lag, id, end, key).0;
      && id in next.deliveries
      && next.deliveries[id].status == Failed && next.deliveries[id].attempts == db.deliveries[id].attempts
  {
    hide Inv, CompleteWindow;
    LocksIt(db, id.schedule, i, id.due, end);
    KeysOf(db);
    RowOf(db, id);
    RowWindow(db, id, i);
    OwnerAfterAdoption(db, id, end, key);
    var d := Reclaimed(db.deliveries[id].(key := key), db.clock - lag, db.nextToken);
    CompleteTouches(Put(AdoptKey(db, id, end, key), id, d).(nextToken := db.nextToken + 1), id, end);
  }

  // ---- finalisations ----

  /**
   A finalisation succeeds exactly on the row that its claim left in a pending window; the row then is
   sent at the given time, or failed, and otherwise as it was. A refused one changes nothing.
   */
  lemma FinalizedExactly(db: Db, id: DeliveryId, end: Time, key: string, token: nat, attempts: int,
                         sentAt: Option<Time>)
    requires Inv(db)
    ensures var (next, outcome) := Finalize(db, id, end, key, token, attempts, sentAt);
      && (outcome == Finalized <==>
            && (exists i :: PendingAt(db, id.schedule, i, id.due, end))
            && id in db.deliveries
            && var d := db.deliveries[id];
            && d.key == key && d.end == end && d.token == token && d.status == Sending && d.attempts == attempts)
      && (outcome != Finalized ==> next == db)
      && (outcome == Finalized ==>
            && id in next.deliveries
            && next.deliveries[id].(status := Sending, sentAt := None) == db.deliveries[id].(sentAt := None)
            && next.deliveries[id].status == (if sentAt.Some? then Sent else Failed)
            && next.deliveries[id].sentAt == (if sentAt.Some? then sentAt else db.deliveries[id].sentAt))
  {
    hide Inv, CompleteWindow;
    var lock := LockPending(db, id.schedule, id.due, end);
    if lock.Some? {
      assert PendingAt(db, id.schedule, lock.value, id.due, end);
    } else if i: nat :| PendingAt(db, id.schedule, i, id.due, end) {
      LocksIt(db, id.schedule, i, id.due, end);
    }
    if id in db.deliveries {
      RowOf(db, id);
      var d := db.deliveries[id];
      var settled := if sentAt.Some? then d.(status := Sent, sentAt := sentAt) else d.(status := Failed);
      CompleteTouches(Put(db, id, settled), id, end);
    }
    if lock.Some? {
      LocksIt(db, id.schedule, lock.value, id.due, end);
    }
  }

  /** A window without recipients has nobody to wait for, and is left to the no-op completion. */
  lemma CompletionNeedsRecipients(db: Db, s: Id, i: nat)
    requires s in db.schedules && i < |db.schedules[s].windows| && db.schedules[s].windows[i].recipients == {}
    requires ScheduleInv(db.schedules[s])
    ensures CompleteWindow(db, s, db.schedules[s].windows[i].due, db.schedules[s].windows[i].end) == db
  {
    FindsIt(db.schedules[s].windows, i);
  }

  // ---- closing without sending ----

  /**
   A no-op completion of a pending window that no lease holds completes it, advances the schedule to its
   end, and fails what has not been sent; every other delivery and window stays as it is.
   */
  lemma NoopClosesExactly(db: Db, s: Id, i: nat)
    requires Inv(db) && s in db.schedules && i < |db.schedules[s].windows|
    requires db.schedules[s].windows[i].status == WindowPending
    ensures var w := db.schedules[s].windows[i]; var (next, outcome) := CompleteNoop(db, s, w.due, w.end);
      && (outcome == Deferred <==>
            exists id <- db.deliveries :: var d := db.deliveries[id];
              id.schedule == s && id.due == w.due && d.status == Sending && db.clock <= d.claimedAt + LEASE)
      && (outcome == Deferred ==> next == db)
      && (outcome != Deferred ==>
            && outcome == Closed && next.clock == db.clock && next.nextToken == db.nextToken
            && next.schedules.Keys == db.schedules.Keys
            && (forall t <- db.schedules :: t != s ==> next.schedules[t] == db.schedules[t])
            && next.schedules[s].lastSuccess == Some(w.end)
            && next.schedules[s].windows == db.schedules[s].windows[i := w.(status := WindowCompleted)]
            && next.deliveries.Keys == db.deliveries.Keys
            && forall id <- db.deliveries :: var d := db.deliveries[id];
                 next.deliveries[id] ==
                 if id.schedule == s && id.due == w.due && d.status != Sent then d.(status := Failed) else d)
  {
    hide Inv;
    var ws := db.schedules[s].windows;
    var w := ws[i];
    ScheduleOf(db, s);
    LocksIt(db, s, i, w.due, w.end);
    CloseAdvances(db.schedules[s], i);
    forall id | id in db.deliveries && id.schedule == s && id.due == w.due
      ensures InWindow(id, db.deliveries[id], s, w.due, w.end)
    {
      RowWindow(db, id, i);
    }
  }

  lemma CloseAdvances(sc: Schedule, i: nat)
    requires ScheduleInv(sc) && i < |sc.windows| && sc.windows[i].status == WindowPending
    ensures Greatest(sc.lastSuccess, sc.windows[i].end) == sc.windows[i].end
  {
    PendingIsLast(sc.windows, i);
    assert TileAt(sc.windows, i);
  }

  /** The report's close of a window that has not failed completes it and advances the schedule; nothing else. */
  lemma ReportClosesExactly(db: Db, s: Id, i: nat)
    requires Inv(db) && s in db.schedules && i < |db.schedules[s].windows|
    ensures var sc := db.schedules[s]; var w := sc.windows[i];
      var (next, outcome) := CloseForReport(db, s, w.due, w.end);
      && (outcome == Closed <==> w.status != WindowFailed) && (outcome != Closed ==> next == db)
      && (outcome == Closed ==>
            && next == db.(schedules := next.schedules) && next.schedules.Keys == db.schedules.Keys
            && (forall t <- db.schedules :: t != s ==> next.schedules[t] == db.schedules[t])
            && next.schedules[s].windows == sc.windows[i := w.(status := WindowCompleted)]
            && next.schedules[s].lastSuccess == if w.status == WindowPending then Some(w.end) else sc.lastSuccess)
  {
    hide Inv;
    var sc := db.schedules[s];
    ScheduleOf(db, s);
    FindsIt(sc.windows, i);
    if sc.windows[i].status == WindowPending {
      CloseAdvances(sc, i);
    } else {
      ClosedIsServed(sc, i);
    }
  }

  lemma ClosedIsServed(sc: Schedule, i: nat)
    requires ScheduleInv(sc) && i < |sc.windows| && sc.windows[i].status != WindowPending
    ensures sc.lastSuccess.Some? && sc.windows[i].end <= sc.lastSuccess.value
  {
    var last := |sc.windows| - 1;
    var top := if sc.windows[last].status == WindowPending then last - 1 else last;
    if i < top {
      WindowsOrdered(sc.windows, i, top);
      assert TileAt(sc.windows, top);
    }
  }

  // ---- openings ----

  /**
   The due time and end that an opening reports are those of the schedule's pending window, which is
   its last: the one that was pending before, or the one just created when there was none. There is
   nothing to open exactly when none is pending and no slot is due.
   */
  lemma OpenReportsItsWindow(db: Db, a: Action)
    requires Inv(db) && a.Open? && a.s in db.schedules
    ensures var (next, outcome) := Step(db, a); var ws := db.schedules[a.s].windows;
      var pending := ws != [] && ws[|ws| - 1].status == WindowPending;
      && a.s in next.schedules
      && (outcome.Opened? <==>
            pending || DueTimes.LatestDue(a.now, db.schedules[a.s].lastSuccess, a.hour, a.minute, a.weekdays).Some?)
      && (outcome.Opened? ==>
            var ws' := next.schedules[a.s].windows;
            && ws' != [] && PendingAt(next, a.s, |ws'| - 1, outcome.due, outcome.end) && outcome.created == !pending)
      && (next == db || (outcome.Opened? && outcome.created))
  {
    hide Inv;
    ScheduleOf(db, a.s);
    var ws := db.schedules[a.s].windows;
    var found := FindPending(ws);
    if found.Some? {
      PendingIsLast(ws, found.value);
      assert TileAt(ws, found.value);
    } else {
      NewDueIsFresh(db.schedules[a.s], a.now, a.hour, a.minute, a.weekdays);
    }
  }

  // ---- a delivery that keeps failing ----

  /** So many claims of the delivery, each granted and then finalised as failed. */
  function Retries(id: DeliveryId, d: Delivery, token: nat, attempts: nat): seq<Action>
    requires attempts <= 3
    decreases 3 - attempts
  {
    if attempts == 3 then []
    else
      [DoClaim(0, id, d.end, d.key), DoFinalize(id, d.end, d.key, token, attempts + 1, None)]
      + Retries(id, d, token + 1, attempts + 1)
  }

  /** Every recipient of the window but one is sent or out of attempts. */
  ghost predicate OthersDone(db: Db, id: DeliveryId, w: Window) {
    forall r <- w.recipients :: r != id.recipient ==>
      RecipientSent(db, id.schedule, w, r) || RecipientExhausted(db, id.schedule, w, r)
  }

  /** The failure of a held attempt: the window fails if it was the last attempt of the last recipient. */
  lemma FailureRecorded(db: Db, id: DeliveryId, i: nat)
    requires Inv(db) && id in db.deliveries && db.deliveries[id].status == Sending
    requires PendingAt(db, id.schedule, i, id.due, db.deliveries[id].end)
    ensures var d := db.deliveries[id]; var w := db.schedules[id.schedule].windows[i];
      var next := Step(db, DoFinalize(id, d.end, d.key, d.token, d.attempts, None)).0;
      && Inv(next) && next.clock == db.clock && next.nextToken == db.nextToken
      && next.deliveries == db.deliveries[id := d.(status := Failed)]
      && id.schedule in next.schedules && i < |next.schedules[id.schedule].windows|
      && next.schedules[id.schedule].windows[i] ==
           w.(status := if d.attempts >= 3 && OthersDone(db, id, w) then WindowFailed else WindowPending)
  {
    hide Inv, CompleteWindow;
    var d := db.deliveries[id];
    var w := db.schedules[id.schedule].windows[i];
    var failed := Put(db, id, d.(status := Failed));
    RowOf(db, id);
    RowWindow(db, id, i);
    LocksIt(db, id.schedule, i, id.due, d.end);
    FinalizeKeepsInv(db, DoFinalize(id, d.end, d.key, d.token, d.attempts, None));
    ScheduleOf(db, id.schedule);
    CompletionVerdict(failed, id.schedule, i);
    OthersAfterwards(db, failed, id, w);
    CompleteKeepsWindow(failed, id.schedule, i);
    CompleteTouches(failed, id, d.end);
  }

  /** The recipient of a failed row is done exactly when it has no attempt left. */
  lemma OthersAfterwards(db: Db, db': Db, id: DeliveryId, w: Window)
    requires id in db'.deliveries && db'.deliveries[id].end == w.end && id.due == w.due
    requires db'.deliveries[id].status == Failed && id.recipient in w.recipients
    requires forall o: DeliveryId :: o != id ==> SameRow(db, db', o)
    ensures (forall r <- w.recipients ::
        RecipientSent(db', id.schedule, w, r) || RecipientExhausted(db', id.schedule, w, r))
      <==> db'.deliveries[id].attempts >= 3 && OthersDone(db, id, w)
    ensures OthersDone(db', id, w) <==> OthersDone(db, id, w)
    ensures !RecipientSent(db', id.schedule, w, id.recipient)
  {
    forall r: Id | r != id.recipient
      ensures RecipientSent(db', id.schedule, w, r) == RecipientSent(db, id.schedule, w, r)
      ensures RecipientExhausted(db', id.schedule, w, r) == RecipientExhausted(db, id.schedule, w, r)
    {
      assert SameRow(db, db', DeliveryId(id.schedule, r, w.due));
    }
  }

  lemma CompleteKeepsWindow(db: Db, s: Id, i: nat)
    requires s in db.schedules && i < |db.schedules[s].windows|
    ensures var w := db.schedules[s].windows[i]; var closed := CompleteWindow(db, s, w.due, w.end);
      && s in closed.schedules && i < |closed.schedules[s].windows|
      && closed.schedules[s].windows[i].(status := w.status) == w && closed.clock == db.clock
  {
  }

  /** One failed attempt: the claim is granted, and its failure is recorded. */
  lemma FailedAttempt(db: Db, id: DeliveryId, i: nat) returns (next: Db)
    requires Inv(db) && id in db.deliveries
    requires var d := db.deliveries[id]; PendingAt(db, id.schedule, i, id.due, d.end) && d.attempts < 3
    requires db.deliveries[id].status == Waiting || db.deliveries[id].status == Failed
    ensures Inv(next) && next.nextToken == db.nextToken + 1 && id in next.deliveries
    ensures var d := db.deliveries[id]; var w := db.schedules[id.schedule].windows[i];
      && next.deliveries[id] == Delivery(d.key, d.end, Failed, d.attempts + 1, db.clock, db.nextToken, None)
      && (OthersDone(next, id, w) <==> OthersDone(db, id, w))
      && id.schedule in next.schedules && i < |next.schedules[id.schedule].windows|
      && next.schedules[id.schedule].windows[i] ==
           w.(status := if d.attempts == 2 && OthersDone(db, id, w) then WindowFailed else WindowPending)
    ensures var d := db.deliveries[id]; var claimed := Step(db, DoClaim(0, id, d.end, d.key)).0;
      next == Step(claimed, DoFinalize(id, d.end, d.key, db.nextToken, d.attempts + 1, None)).0
  {
    hide Inv, CompleteWindow, Claim, Finalize;
    var d := db.deliveries[id];
    var w := db.schedules[id.schedule].windows[i];
    KeysOf(db);
    ClaimGrantedExactly(db, 0, id, d.end, d.key, i);
    ClaimKeepsInv(db, 0, id, d.end, d.key);
    var claimed := Step(db, DoClaim(0, id, d.end, d.key)).0;
    FailureRecorded(claimed, id, i);
    RowWindow(db, id, i);
    OthersUntouched(db, claimed, id, w);
    next := Step(claimed, DoFinalize(id, d.end, d.key, db.nextToken, d.attempts + 1, None)).0;
    OthersUntouched(db, next, id, w);
  }

  lemma OthersUntouched(db: Db, db': Db, id: DeliveryId, w: Window)
    requires id.due == w.due && forall o: DeliveryId :: o != id ==> SameRow(db, db', o)
    ensures OthersDone(db', id, w) <==> OthersDone(db, id, w)
  {
    forall r: Id | r != id.recipient
      ensures RecipientSent(db', id.schedule, w, r) == RecipientSent(db, id.schedule, w, r)
      ensures RecipientExhausted(db', id.schedule, w, r) == RecipientExhausted(db, id.schedule, w, r)
    {
      assert SameRow(db, db', DeliveryId(id.schedule, r, w.due));
    }
  }

  /**
   A delivery whose attempts keep failing reaches attempt three, whatever it began with, and the window
   then fails, once every other recipient is sent or out of attempts; until then it stays pending.
   */
  lemma {:induction false} FailingDeliveryIsGivenUp(db: Db, id: DeliveryId, i: nat)
    requires Inv(db) && id in db.deliveries
    requires var d := db.deliveries[id]; PendingAt(db, id.schedule, i, id.due, d.end) && d.attempts < 3
    requires db.deliveries[id].status == Waiting || db.deliveries[id].status == Failed
    ensures var d := db.deliveries[id]; var w := db.schedules[id.schedule].windows[i];
      var final := Run(db, Retries(id, d, db.nextToken, d.attempts));
      && id in final.deliveries
      && final.deliveries[id].status == Failed && final.deliveries[id].attempts == 3
      && id.schedule in final.schedules && i < |final.schedules[id.schedule].windows|
      && final.schedules[id.schedule].windows[i] ==
           w.(status := if OthersDone(db, id, w) then WindowFailed else WindowPending)
    decreases 3 - db.deliveries[id].attempts
  {
    hide Inv, Step, OthersDone;
    var d := db.deliveries[id];
    var next := FailedAttempt(db, id, i);
    var a := DoClaim(0, id, d.end, d.key);
    var b := DoFinalize(id, d.end, d.key, db.nextToken, d.attempts + 1, None);
    var rest := Retries(id, d, db.nextToken + 1, d.attempts + 1);
    TwoSteps(db, a, b, rest);
    if d.attempts < 2 {
      FailingDeliveryIsGivenUp(next, id, i);
      SameRetries(id, d, next.deliveries[id], db.nextToken + 1, d.attempts + 1);
    }
  }

  lemma SameRetries(id: DeliveryId, d: Delivery, e: Delivery, token: nat, attempts: nat)
    requires attempts <= 3 && d.end == e.end && d.key == e.key
    ensures Retries(id, d, token, attempts) == Retries(id, e, token, attempts)
    decreases 3 - attempts
  {
  }

  lemma TwoSteps(db: Db, a: Action, b: Action, rest: seq<Action>)
    ensures Run(db, [a, b] + rest) == Run(Step(Step(db, a).0, b).0, rest)
  {
    hide Step;
    assert ([a, b] + rest)[1..] == [b] + rest && ([b] + rest)[1..] == rest;
  }
}
