/**
 The digest transactions as they run against the tables: each method reads and updates rows in the
 order of its statements and is proved to be the step that `DigestModel` gives it.
 */
module DigestDatabase {
  import opened Basics
  import opened Model = DigestModel
  import opened DigestInvariant
  import DueTimes

  class Database {
    var clock: Time
    var schedules: map<Id, Schedule>
    var deliveries: map<DeliveryId, Delivery>
    var nextToken: nat

    function State(): Db
      reads this
    {
      Db(clock, schedules, deliveries, nextToken)
    }

    /** The constraints of the schema and what the transactions keep. */
    ghost predicate Valid()
      reads this
    {
      Inv(State())
    }

    constructor ()
      ensures Valid() && State() == EMPTY
    {
      clock, schedules, deliveries, nextToken := 0, map[], map[], 0;
    }

    /** SELECT ... WHERE due_at = ... AND window_end_at = ... FOR UPDATE */
    method LocateWindow(s: Id, due: Time, end: Time) returns (r: Option<nat>)
      requires s in schedules
      ensures r == FindWindow(schedules[s].windows, due, end)
    {
      var ws := schedules[s].windows;
      var n := |ws|;
      assert ws[..n] == ws;
      while n > 0
        invariant 0 <= n <= |ws|
        invariant FindWindow(ws, due, end) == FindWindow(ws[..n], due, end)
      {
        assert ws[..n][..n - 1] == ws[..n - 1];
        if ws[n - 1].due == due && ws[n - 1].end == end {
          return Some(n - 1);
        }
        n := n - 1;
      }
      return None;
    }

    method LockWindow(s: Id, due: Time, end: Time) returns (r: Option<nat>)
      ensures r == LockPending(State(), s, due, end)
    {
      if s !in schedules {
        return None;
      }
      r := LocateWindow(s, due, end);
      if r.Some? && schedules[s].windows[r.value].status != WindowPending {
        r := None;
      }
    }

    /** The row found through the unique index on the idempotency key. */
    method FindKeyOwner(key: string) returns (r: Option<DeliveryId>)
      requires KeysUnique(deliveries)
      ensures r == KeyOwner(deliveries, key)
    {
      var rest := deliveries.Keys;
      while rest != {}
        invariant rest <= deliveries.Keys
        invariant forall id :: id in deliveries.Keys - rest ==> deliveries[id].key != key
        decreases rest
      {
        var id :| id in rest;
        if deliveries[id].key == key {
          return Some(id);
        }
        rest := rest - {id};
      }
      return None;
    }

    /** The aggregates over a window's recipients joined with their deliveries. */
    method RecipientState(s: Id, w: Window)
      returns (hasRecipients: bool, allSent: bool, allTerminal: bool, anyExhausted: bool)
      ensures hasRecipients == (w.recipients != {})
      ensures allSent == AllSent(State(), s, w)
      ensures allTerminal == AllTerminal(State(), s, w)
      ensures anyExhausted == AnyExhausted(State(), s, w)
    {
      hasRecipients, allSent, allTerminal, anyExhausted := w.recipients != {}, true, true, false;
      var rest := w.recipients;
      while rest != {}
        invariant rest <= w.recipients
        invariant allSent <==> forall r <- w.recipients - rest :: RecipientSent(State(), s, w, r)
        invariant allTerminal <==>
          forall r <- w.recipients - rest :: RecipientSent(State(), s, w, r) || RecipientExhausted(State(), s, w, r)
        invariant anyExhausted <==> exists r <- w.recipients - rest :: RecipientExhausted(State(), s, w, r)
        decreases rest
      {
        var r :| r in rest;
        var id := DeliveryId(s, r, w.due);
        var joined := id in deliveries && deliveries[id].end == w.end;
        var sent := joined && deliveries[id].status == Sent;
        var exhausted := joined && deliveries[id].status == Failed && deliveries[id].attempts >= MAX_ATTEMPTS;
        assert sent == RecipientSent(State(), s, w, r) && exhausted == RecipientExhausted(State(), s, w, r);
        assert w.recipients - (rest - {r}) == (w.recipients - rest) + {r};
        allSent := allSent && sent;
        allTerminal := allTerminal && (sent || exhausted);
        anyExhausted := anyExhausted || exhausted;
        rest := rest - {r};
      }
      assert w.recipients - rest == w.recipients;
    }

    method CompleteScheduleWindow(s: Id, due: Time, end: Time)
      modifies this`schedules
      ensures State() == CompleteWindow(old(State()), s, due, end)
    {
      var locked := LockWindow(s, due, end);
      if locked.None? {
        return;
      }
      var sc := schedules[s];
      var w := sc.windows[locked.value];
      var hasRecipients, allSent, allTerminal, anyExhausted := RecipientState(s, w);
      if hasRecipients && (allSent || (allTerminal && anyExhausted)) {
        var status := if allSent then WindowCompleted else WindowFailed;
        var windows := sc.windows[locked.value := w.(status := status)];
        schedules := schedules[s := Schedule(Some(Greatest(sc.lastSuccess, w.end)), windows)];
      }
    }

    /** Claim a delivery for a transaction that began `lag` before now. */
    method Claim(lag: nat, id: DeliveryId, end: Time, key: string) returns (outcome: Outcome)
      requires Valid()
      modifies this
      ensures Valid()
      ensures (State(), outcome) == Model.Claim(old(State()), lag, id, end, key)
    {
      hide Inv, CompleteWindow, LockPending;
      ClaimKeepsInv(State(), lag, id, end, key);
      KeysOf(State());
      if end < id.due {
        return Rejected;
      }
      var locked := LockWindow(id.schedule, id.due, end);
      if locked.None? {
        return Unchanged;
      }
      LockedWindow(State(), id.schedule, id.due, end);
      var recipients := schedules[id.schedule].windows[locked.value].recipients;
      AdoptKeepsInv(State(), id, end, key);
      var owner := FindKeyOwner(key);
      if id in deliveries && deliveries[id].end == end && owner.None? {
        deliveries := deliveries[id := deliveries[id].(key := key)];
      }
      assert State() == AdoptKey(old(State()), id, end, key);
      KeysOf(State());
      outcome := UpsertClaim(clock - lag, id, end, key, recipients);
    }

    /** The insert with its conflict update; a violated constraint rolls the insert back. */
    method UpsertClaim(now: Time, id: DeliveryId, end: Time, key: string, recipients: set<Id>)
      returns (outcome: Outcome)
      requires KeysUnique(deliveries)
      modifies this
      ensures (State(), outcome) == Upsert(old(State()), now, id, end, key, recipients)
    {
      hide CompleteWindow;
      var owner := FindKeyOwner(key);
      if owner.None? {
        if id in deliveries || id.recipient !in recipients {
          return Rejected;
        }
        deliveries := deliveries[id := Delivery(key, end, Sending, 1, now, nextToken, None)];
        nextToken := nextToken + 1;
        return Claimed(1, nextToken - 1);
      }
      if owner.value != id || deliveries[id].end != end || !Claimable(deliveries[id], now) {
        CompleteScheduleWindow(id.schedule, id.due, end);
        return Unchanged;
      }
      var d := deliveries[id];
      var exhausted := d.status == Sending && d.attempts >= MAX_ATTEMPTS;
      d := d.(status := if exhausted then Failed else Sending,
              attempts := if d.attempts < MAX_ATTEMPTS then d.attempts + 1 else d.attempts,
              sentAt := None, claimedAt := now, token := nextToken);
      deliveries := deliveries[id := d];
      nextToken := nextToken + 1;
      if exhausted {
        CompleteScheduleWindow(id.schedule, id.due, end);
        return Unchanged;
      }
      return Claimed(d.attempts, d.token);
    }

    lemma LockedWindow(db: Db, s: Id, due: Time, end: Time)
      requires LockPending(db, s, due, end).Some?
      ensures s in db.schedules && LockPending(db, s, due, end).value < |db.schedules[s].windows|
    {
    }

    method FinalizeSent(id: DeliveryId, end: Time, key: string, token: nat, attempts: int, sentAt: Time)
      returns (outcome: Outcome)
      requires Valid()
      modifies this
      ensures Valid()
      ensures (State(), outcome) == Model.Finalize(old(State()), id, end, key, token, attempts, Some(sentAt))
    {
      hide Inv, CompleteWindow, LockPending;
      FinalizeKeepsInv(State(), DoFinalize(id, end, key, token, attempts, Some(sentAt)));
      if attempts < 1 || attempts > MAX_ATTEMPTS || end < id.due {
        return Rejected;
      }
      var locked := LockWindow(id.schedule, id.due, end);
      if locked.None? || !Held(State(), id, end, key, token, attempts) {
        return Rejected;
      }
      deliveries := deliveries[id := deliveries[id].(status := Sent, sentAt := Some(sentAt))];
      CompleteScheduleWindow(id.schedule, id.due, end);
      return Finalized;
    }

    method FinalizeFailure(id: DeliveryId, end: Time, key: string, token: nat, attempts: int) returns (outcome: Outcome)
      requires Valid()
      modifies this
      ensures Valid()
      ensures (State(), outcome) == Model.Finalize(old(State()), id, end, key, token, attempts, None)
    {
      hide Inv, CompleteWindow, LockPending;
      FinalizeKeepsInv(State(), DoFinalize(id, end, key, token, attempts, None));
      if attempts < 1 || attempts > MAX_ATTEMPTS || end < id.due {
        return Rejected;
      }
      var locked := LockWindow(id.schedule, id.due, end);
      if locked.None? || !Held(State(), id, end, key, token, attempts) {
        return Rejected;
      }
      deliveries := deliveries[id := deliveries[id].(status := Failed)];
      CompleteScheduleWindow(id.schedule, id.due, end);
      return Finalized;
    }

    method FindActiveLease(s: Id, due: Time, end: Time) returns (found: bool)
      ensures found == ActiveLease(State(), s, due, end)
    {
      var rest := deliveries.Keys;
      while rest != {}
        invariant rest <= deliveries.Keys
        invariant forall id :: id in deliveries.Keys - rest ==>
          !(InWindow(id, deliveries[id], s, due, end) && LeaseLive(deliveries[id], clock))
        decreases rest
      {
        var id :| id in rest;
        if InWindow(id, deliveries[id], s, due, end) && LeaseLive(deliveries[id], clock) {
          return true;
        }
        rest := rest - {id};
      }
      return false;
    }

    /** Close a window that has nothing to send, unless a live claim makes it wait. */
    method CompleteNoop(s: Id, due: Time, end: Time) returns (outcome: Outcome)
      requires Valid()
      modifies this
      ensures Valid()
      ensures (State(), outcome) == Model.CompleteNoop(old(State()), s, due, end)
    {
      NoopKeepsInv(State(), s, due, end);
      if end < due || s !in schedules {
        return Rejected;
      }
      var target := LocateWindow(s, due, end);
      if target.None? || schedules[s].windows[target.value].status == WindowFailed {
        return Rejected;
      }
      if schedules[s].windows[target.value].status == WindowCompleted {
        return Closed;
      }
      var active := FindActiveLease(s, due, end);
      if active {
        return Deferred;
      }
      deliveries := CancelUnsent(deliveries, s, due, end);
      var sc := schedules[s];
      var w := sc.windows[target.value];
      schedules := schedules[s := Schedule(
        Some(Greatest(sc.lastSuccess, w.end)),
        sc.windows[target.value := w.(status := WindowCompleted)])];
      return Closed;
    }

    /** Select or create the schedule's window: `selectDigestWindow`, then `getOrCreateDigestWindow`. */
    method OpenWindow(s: Id, now: Time, hour: int, minute: int, weekdays: seq<int>, visible: set<Match>,
                      recipients: set<Id>)
      returns (outcome: Outcome)
      requires Valid()
      modifies this
      ensures Valid()
      ensures (State(), outcome) == Model.OpenWindow(old(State()), s, now, hour, minute, weekdays, visible, recipients)
    {
      OpenKeepsInv(State(), Open(s, now, hour, minute, weekdays, visible, recipients));
      if s !in schedules {
        return Rejected;
      }
      var sc := schedules[s];
      var pending := FindPending(sc.windows);
      if pending.Some? {
        var w := sc.windows[pending.value];
        if w.end < w.due {
          return Unchanged;
        }
        return Opened(w.due, w.end, false);
      }
      var due := DueTimes.LatestDigestDue(now, sc.lastSuccess, hour, minute, weekdays);
      if due.None? {
        return Unchanged;
      }
      var conflict := FindDue(sc.windows, due.value);
      if conflict.Some? {
        return Opened(due.value, sc.windows[conflict.value].end, false);
      }
      var items := Snapshot(visible, sc.lastSuccess, now);
      var w := Window(due.value, now, WindowPending, sc.lastSuccess, items, recipients);
      schedules := schedules[s := sc.(windows := sc.windows + [w])];
      return Opened(due.value, now, true);
    }

    /** The window statements of finalizeReport. */
    method CloseForReport(s: Id, due: Time, end: Time) returns (outcome: Outcome)
      requires Valid()
      modifies this`schedules
      ensures Valid()
      ensures (State(), outcome) == Model.CloseForReport(old(State()), s, due, end)
    {
      hide Inv;
      StepKeepsInv(State(), ReportClose(s, due, end));
      if s !in schedules {
        return Rejected;
      }
      var target := LocateWindow(s, due, end);
      if target.None? || schedules[s].windows[target.value].status == WindowFailed {
        return Rejected;
      }
      var sc := schedules[s];
      var w := sc.windows[target.value];
      schedules := schedules[s := Schedule(
        Some(Greatest(sc.lastSuccess, w.end)),
        sc.windows[target.value := w.(status := WindowCompleted)])];
      return Closed;
    }

    /** Any transaction of the protocol, by anyone; `Tick` is the clock itself. */
    method Act(a: Action) returns (outcome: Outcome)
      requires Valid()
      modifies this
      ensures Valid()
      ensures (State(), outcome) == Step(old(State()), a)
    {
      hide Inv, Model.Claim, Finalize, Model.CompleteNoop, Model.OpenWindow, Model.CloseForReport;
      StepKeepsInv(State(), a);
      match a
      case Tick(elapsed) =>
        clock := clock + elapsed;
        outcome := Unchanged;
      case NewSchedule(s) =>
        if s in schedules {
          return Rejected;
        }
        schedules := schedules[s := Schedule(None, [])];
        outcome := Unchanged;
      case Open(s, now, hour, minute, weekdays, visible, recipients) =>
        outcome := OpenWindow(s, now, hour, minute, weekdays, visible, recipients);
      case DoClaim(lag, id, end, key) =>
        outcome := Claim(lag, id, end, key);
      case DoFinalize(id, end, key, token, attempts, sentAt) =>
        if sentAt.Some? {
          outcome := FinalizeSent(id, end, key, token, attempts, sentAt.value);
        } else {
          outcome := FinalizeFailure(id, end, key, token, attempts);
        }
      case Noop(s, due, end) =>
        outcome := CompleteNoop(s, due, end);
      case ReportClose(s, due, end) =>
        outcome := CloseForReport(s, due, end);
    }
  }
}
