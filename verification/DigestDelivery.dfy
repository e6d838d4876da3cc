/** What the mail flow keeps on top of the shape: live work stays in pending windows. */
module DigestDelivery {
  import opened Basics
  import opened DigestModel
  import opened DigestInvariant
  import DueTimes

  /** A pending window with recipients has one that is neither sent nor out of attempts. */
  ghost predicate HasWork(db: Db, s: Id, w: Window) {
    w.status == WindowPending && w.recipients != {} ==> !AllTerminal(db, s, w)
  }

  ghost predicate WorkAt(db: Db, s: Id, i: int) {
    s in db.schedules && 0 <= i < |db.schedules[s].windows| ==> HasWork(db, s, db.schedules[s].windows[i])
  }

  ghost predicate DueAt(db: Db, s: Id, i: int, due: Time) {
    s in db.schedules && 0 <= i < |db.schedules[s].windows| && db.schedules[s].windows[i].due == due
  }

  /** Every window has its work, except perhaps the one of schedule s that is due at `due`. */
  ghost predicate WorkExcept(db: Db, s: Id, due: Time) {
    forall t, i :: WorkAt(db, t, i) || (t == s && DueAt(db, s, i, due))
  }

  ghost predicate Work(db: Db) {
    forall t, i :: WorkAt(db, t, i)
  }

  predicate Active(d: Delivery) {
    d.status == Waiting || d.status == Sending
  }

  /** A delivery that is not finished belongs to a pending window. */
  ghost predicate ActiveInPending(db: Db) {
    forall id <- db.deliveries :: PendingIfActive(db, id)
  }

  ghost predicate PendingIfActive(db: Db, id: DeliveryId)
    requires id in db.deliveries
  {
    Active(db.deliveries[id]) ==> LockPending(db, id.schedule, id.due, db.deliveries[id].end).Some?
  }

  ghost predicate FlowInv(db: Db) {
    Inv(db) && Work(db) && ActiveInPending(db)
  }

  lemma WorkIsWorkExcept(db: Db, s: Id, due: Time)
    requires Work(db)
    ensures WorkExcept(db, s, due)
  {
  }

  // ---- locating windows ----

  lemma FindsIt(ws: seq<Window>, i: nat)
    requires WindowsTile(ws) && i < |ws|
    ensures FindWindow(ws, ws[i].due, ws[i].end) == Some(i)
  {
    var r := FindWindow(ws, ws[i].due, ws[i].end);
    DueIsUnique(ws, r.value, i);
  }

  /** A delivery row refers to the one window that is due when it is. */
  lemma RowWindow(db: Db, id: DeliveryId, i: nat)
    requires Inv(db) && id in db.deliveries
    requires i < |db.schedules[id.schedule].windows| && db.schedules[id.schedule].windows[i].due == id.due
    ensures Refers(db.schedules[id.schedule].windows, i, id, db.deliveries[id].end)
  {
    assert RowInv(db, id, db.deliveries[id]);
    var ws := db.schedules[id.schedule].windows;
    var k :| Refers(ws, k, id, db.deliveries[id].end);
    DueIsUnique(ws, i, k);
  }

  /** An active row refers to the last window of its schedule. */
  lemma ActiveRowWindow(db: Db, id: DeliveryId)
    requires Inv(db) && ActiveInPending(db)
    requires id in db.deliveries && Active(db.deliveries[id])
    ensures id.schedule in db.schedules && db.schedules[id.schedule].windows != []
    ensures var ws := db.schedules[id.schedule].windows;
      ws[|ws| - 1].status == WindowPending && Refers(ws, |ws| - 1, id, db.deliveries[id].end)
  {
    assert PendingIfActive(db, id);
    var i := LockPending(db, id.schedule, id.due, db.deliveries[id].end).value;
    PendingIsLast(db.schedules[id.schedule].windows, i);
    RowWindow(db, id, i);
  }

  /** Only the rows of its own recipients decide whether a window has work left. */
  lemma WorkFrame(db: Db, db': Db, s: Id, i: int)
    requires WorkAt(db, s, i)
    requires s in db.schedules && s in db'.schedules
    requires 0 <= i < |db.schedules[s].windows| && 0 <= i < |db'.schedules[s].windows|
    requires db'.schedules[s].windows[i] == db.schedules[s].windows[i]
    requires forall r: Id :: var id := DeliveryId(s, r, db.schedules[s].windows[i].due);
      (id in db.deliveries <==> id in db'.deliveries)
        && (id in db.deliveries ==> db'.deliveries[id] == db.deliveries[id])
    ensures WorkAt(db', s, i)
  {
    var w := db.schedules[s].windows[i];
    if w.status == WindowPending && w.recipients != {} {
      var r :| r in w.recipients && !(RecipientSent(db, s, w, r) || RecipientExhausted(db, s, w, r));
      var id := DeliveryId(s, r, w.due);
      assert id in db.deliveries <==> id in db'.deliveries;
      assert !(RecipientSent(db', s, w, r) || RecipientExhausted(db', s, w, r));
    }
  }

  // ---- closing ----

  /** Closing a pending window none of whose deliveries is active keeps the rest of the flow. */
  lemma CloseKeepsFlow(db: Db, s: Id, i: nat, status: WindowStatus)
    requires Inv(db) && s in db.schedules && i < |db.schedules[s].windows|
    requires db.schedules[s].windows[i].status == WindowPending && status != WindowPending
    requires WorkExcept(db, s, db.schedules[s].windows[i].due)
    requires ActiveInPending(db)
    requires forall id <- db.deliveries :: id.schedule == s ==> !Active(db.deliveries[id])
    ensures FlowInv(CloseWindow(db, s, i, status))
  {
    var db' := CloseWindow(db, s, i, status);
    var ws := db.schedules[s].windows;
    CloseKeepsInv(db, s, i, status);
    forall t, k
      ensures WorkAt(db', t, k)
    {
      if t in db.schedules && 0 <= k < |db.schedules[t].windows| && (t != s || k != i) {
        if t == s && ws[k].due == ws[i].due {
          DueIsUnique(ws, k, i);
        }
        assert WorkAt(db, t, k);
        WorkFrame(db, db', t, k);
      }
    }
    forall id | id in db'.deliveries
      ensures PendingIfActive(db', id)
    {
      assert PendingIfActive(db, id);
      assert Active(db'.deliveries[id]) ==> id.schedule != s;
    }
  }

  /** When every recipient of the pending window is terminal, its schedule has nothing active. */
  lemma TerminalLeavesNoneActive(db: Db, s: Id, i: nat)
    requires Inv(db) && ActiveInPending(db) && s in db.schedules && i < |db.schedules[s].windows|
    requires db.schedules[s].windows[i].status == WindowPending && AllTerminal(db, s, db.schedules[s].windows[i])
    ensures forall id <- db.deliveries :: id.schedule == s ==> !Active(db.deliveries[id])
  {
    hide Inv, ActiveInPending;
    ScheduleOf(db, s);
    PendingIsLast(db.schedules[s].windows, i);
    forall id | id in db.deliveries && id.schedule == s
      ensures !Active(db.deliveries[id])
    {
      if Active(db.deliveries[id]) {
        ActiveRowWindow(db, id);
        assert false;
      }
    }
  }

  /** completeScheduleWindow restores the one window that may have run out of work. */
  lemma CompleteRestores(db: Db, s: Id, due: Time, end: Time)
    requires Inv(db) && WorkExcept(db, s, due) && ActiveInPending(db)
    requires LockPending(db, s, due, end).Some?
    ensures FlowInv(CompleteWindow(db, s, due, end))
  {
    hide Inv, ActiveInPending;
    ScheduleOf(db, s);
    var i := LockPending(db, s, due, end).value;
    var ws := db.schedules[s].windows;
    var w := ws[i];
    if w.recipients != {} && AllTerminal(db, s, w) {
      assert AllSent(db, s, w) || AnyExhausted(db, s, w);
      TerminalLeavesNoneActive(db, s, i);
      CloseKeepsFlow(db, s, i, if AllSent(db, s, w) then WindowCompleted else WindowFailed);
    } else {
      assert w.recipients != {} ==> !AllSent(db, s, w);
      forall t, k
        ensures WorkAt(db, t, k)
      {
        if t == s && DueAt(db, s, k, due) {
          DueIsUnique(ws, k, i);
        }
      }
    }
  }

  // ---- rows ----

  /** Writing one row disturbs at most the window it belongs to. */
  lemma PutKeepsOthers(db: Db, id: DeliveryId, d: Delivery, nextToken: nat)
    requires Work(db) && ActiveInPending(db)
    requires Active(d) ==> LockPending(db, id.schedule, id.due, d.end).Some?
    ensures var db' := Put(db, id, d).(nextToken := nextToken);
      WorkExcept(db', id.schedule, id.due) && ActiveInPending(db')
  {
    var db' := Put(db, id, d).(nextToken := nextToken);
    forall t, k
      ensures WorkAt(db', t, k) || (t == id.schedule && DueAt(db', t, k, id.due))
    {
      if t in db.schedules && 0 <= k < |db.schedules[t].windows| && !(t == id.schedule && DueAt(db, t, k, id.due)) {
        assert WorkAt(db, t, k);
        WorkFrame(db, db', t, k);
      }
    }
    forall o | o in db'.deliveries
      ensures PendingIfActive(db', o)
    {
      assert o != id ==> PendingIfActive(db, o);
    }
  }

  /** A row that is being sent is work for its own window. */
  lemma SendingIsWork(db: Db, id: DeliveryId)
    requires Inv(db) && WorkExcept(db, id.schedule, id.due)
    requires id in db.deliveries && Active(db.deliveries[id])
    ensures Work(db)
  {
    forall t, k
      ensures WorkAt(db, t, k)
    {
      if t == id.schedule && DueAt(db, t, k, id.due) {
        var w := db.schedules[t].windows[k];
        RowWindow(db, id, k);
        assert !(RecipientSent(db, t, w, id.recipient) || RecipientExhausted(db, t, w, id.recipient));
      }
    }
  }

  lemma AdoptKeepsFlow(db: Db, id: DeliveryId, end: Time, key: string)
    requires FlowInv(db)
    ensures FlowInv(AdoptKey(db, id, end, key))
    ensures var db' := AdoptKey(db, id, end, key); db'.schedules == db.schedules && db'.clock == db.clock
  {
    hide Inv;
    AdoptKeepsInv(db, id, end, key);
    var db' := AdoptKey(db, id, end, key);
    forall t, k
      ensures WorkAt(db', t, k)
    {
      assert WorkAt(db, t, k);
      if t in db.schedules && 0 <= k < |db.schedules[t].windows| {
        var w := db.schedules[t].windows[k];
        assert forall r <- w.recipients ::
          (RecipientSent(db', t, w, r) || RecipientExhausted(db', t, w, r))
          == (RecipientSent(db, t, w, r) || RecipientExhausted(db, t, w, r));
      }
    }
    forall o | o in db'.deliveries
      ensures PendingIfActive(db', o)
    {
      assert PendingIfActive(db, o);
    }
  }

  lemma InsertKeepsFlow(db: Db, now: Time, id: DeliveryId, end: Time, key: string, i: nat)
    requires FlowInv(db) && now <= db.clock
    requires LockPending(db, id.schedule, id.due, end) == Some(i)
    requires KeyOwner(db.deliveries, key) == None
    ensures FlowInv(InsertClaim(db, now, id, end, key, db.schedules[id.schedule].windows[i].recipients).0)
  {
    var r := InsertClaim(db, now, id, end, key, db.schedules[id.schedule].windows[i].recipients);
    InsertKeepsInv(db, now, id, end, key, i);
    if r.1.Claimed? {
      PutKeepsOthers(db, id, r.0.deliveries[id], db.nextToken + 1);
      assert r.0 == Put(db, id, r.0.deliveries[id]).(nextToken := db.nextToken + 1);
      SendingIsWork(r.0, id);
    }
  }

  lemma RenewedKeepsFlow(db: Db, id: DeliveryId, d: Delivery, renewed: Db)
    requires FlowInv(db) && id in db.deliveries
    requires renewed == Put(db, id, d).(nextToken := db.nextToken + 1) && Inv(renewed)
    requires LockPending(db, id.schedule, id.due, d.end).Some?
    ensures d.status == Sending ==> FlowInv(renewed)
    ensures FlowInv(CompleteWindow(renewed, id.schedule, id.due, d.end))
  {
    PutKeepsOthers(db, id, d, db.nextToken + 1);
    if d.status == Sending {
      SendingIsWork(renewed, id);
    }
    assert LockPending(renewed, id.schedule, id.due, d.end) == LockPending(db, id.schedule, id.due, d.end);
    CompleteRestores(renewed, id.schedule, id.due, d.end);
  }

  lemma RenewKeepsFlow(db: Db, now: Time, id: DeliveryId, end: Time)
    requires FlowInv(db) && now <= db.clock && id in db.deliveries
    requires LockPending(db, id.schedule, id.due, end).Some?
    ensures FlowInv(RenewClaim(db, now, id, end).0)
  {
    hide Inv, CompleteWindow, LockPending;
    var d := db.deliveries[id];
    if d.end == end && Claimable(d, now) {
      var d' := Reclaimed(d, now, db.nextToken);
      var renewed := Put(db, id, d').(nextToken := db.nextToken + 1);
      assert Inv(renewed) by {
        RowOf(db, id);
        RewriteKeepsInv(db, id, d', db.nextToken + 1);
      }
      RenewedKeepsFlow(db, id, d', renewed);
      assert RenewClaim(db, now, id, end).0 ==
        if d'.status == Sending then renewed else CompleteWindow(renewed, id.schedule, id.due, end);
    } else {
      WorkIsWorkExcept(db, id.schedule, id.due);
      CompleteRestores(db, id.schedule, id.due, end);
      assert RenewClaim(db, now, id, end).0 == CompleteWindow(db, id.schedule, id.due, end);
    }
  }

  lemma ClaimKeepsFlow(db: Db, lag: nat, id: DeliveryId, end: Time, key: string)
    requires FlowInv(db)
    ensures FlowInv(Claim(db, lag, id, end, key).0)
  {
    hide Inv, Work, ActiveInPending, Upsert;
    var locked := LockPending(db, id.schedule, id.due, end);
    if end >= id.due && locked.Some? {
      var adopted := AdoptKey(db, id, end, key);
      AdoptKeepsFlow(db, id, end, key);
      assert LockPending(adopted, id.schedule, id.due, end) == locked;
      var recipients := db.schedules[id.schedule].windows[locked.value].recipients;
      assert Claim(db, lag, id, end, key) == Upsert(adopted, db.clock - lag, id, end, key, recipients);
      UpsertKeepsFlow(adopted, db.clock - lag, id, end, key, locked.value);
    }
  }

  lemma UpsertKeepsFlow(db: Db, now: Time, id: DeliveryId, end: Time, key: string, i: nat)
    requires FlowInv(db) && now <= db.clock
    requires LockPending(db, id.schedule, id.due, end) == Some(i)
    ensures FlowInv(Upsert(db, now, id, end, key, db.schedules[id.schedule].windows[i].recipients).0)
  {
    var owner := KeyOwner(db.deliveries, key);
    if owner.None? {
      InsertKeepsFlow(db, now, id, end, key, i);
    } else if owner.value == id {
      RenewKeepsFlow(db, now, id, end);
    } else {
      CompleteRestores(db, id.schedule, id.due, end);
    }
  }

  lemma FinalizeKeepsFlow(db: Db, a: Action)
    requires FlowInv(db) && a.DoFinalize?
    ensures FlowInv(Step(db, a).0)
  {
    var next := Step(db, a).0;
    if Step(db, a).1 == Finalized {
      var d := db.deliveries[a.id];
      var d' := if a.sentAt.Some? then d.(status := Sent, sentAt := a.sentAt) else d.(status := Failed);
      var put := Put(db, a.id, d');
      assert RowInv(db, a.id, d);
      RewriteKeepsInv(db, a.id, d', db.nextToken);
      PutKeepsOthers(db, a.id, d', db.nextToken);
      assert put.(nextToken := db.nextToken) == put;
      assert LockPending(put, a.id.schedule, a.id.due, a.end) == LockPending(db, a.id.schedule, a.id.due, a.end);
      CompleteRestores(put, a.id.schedule, a.id.due, a.end);
      assert next == CompleteWindow(put, a.id.schedule, a.id.due, a.end);
    } else {
      assert next == db;
    }
  }

  // ---- windows ----

  /** Cancelling leaves no active delivery in the schedule of the pending window. */
  lemma CancelLeavesNoneActive(db: Db, s: Id, i: nat)
    requires Inv(db) && ActiveInPending(db) && s in db.schedules && i < |db.schedules[s].windows|
    requires db.schedules[s].windows[i].status == WindowPending
    ensures var w := db.schedules[s].windows[i]; var ds := CancelUnsent(db.deliveries, s, w.due, w.end);
      forall id <- ds :: id.schedule == s ==> !Active(ds[id])
  {
    hide Inv, ActiveInPending;
    ScheduleOf(db, s);
    PendingIsLast(db.schedules[s].windows, i);
    forall id | id in db.deliveries && id.schedule == s && Active(db.deliveries[id])
      ensures Refers(db.schedules[s].windows, i, id, db.deliveries[id].end)
    {
      ActiveRowWindow(db, id);
    }
  }

  lemma CancelKeepsOthers(db: Db, s: Id, due: Time, end: Time)
    requires Work(db) && ActiveInPending(db)
    ensures var cancelled := db.(deliveries := CancelUnsent(db.deliveries, s, due, end));
      WorkExcept(cancelled, s, due) && ActiveInPending(cancelled)
  {
    var cancelled := db.(deliveries := CancelUnsent(db.deliveries, s, due, end));
    forall t, k
      ensures WorkAt(cancelled, t, k) || (t == s && DueAt(cancelled, t, k, due))
    {
      assert WorkAt(db, t, k);
      if t in db.schedules && 0 <= k < |db.schedules[t].windows| && !(t == s && DueAt(db, t, k, due)) {
        WorkFrame(db, cancelled, t, k);
      }
    }
    forall id | id in cancelled.deliveries
      ensures PendingIfActive(cancelled, id)
    {
      assert PendingIfActive(db, id);
    }
  }

  lemma NoopKeepsFlow(db: Db, s: Id, due: Time, end: Time)
    requires FlowInv(db)
    ensures FlowInv(CompleteNoop(db, s, due, end).0)
  {
    var next := CompleteNoop(db, s, due, end).0;
    if next != db {
      var i := FindWindow(db.schedules[s].windows, due, end).value;
      var cancelled := db.(deliveries := CancelUnsent(db.deliveries, s, due, end));
      CancelKeepsInv(db, s, due, end);
      CancelKeepsOthers(db, s, due, end);
      CancelLeavesNoneActive(db, s, i);
      CloseKeepsFlow(cancelled, s, i, WindowCompleted);
      assert next == CloseWindow(cancelled, s, i, WindowCompleted);
    }
  }

  lemma OpenKeepsFlow(db: Db, a: Action)
    requires FlowInv(db) && a.Open?
    ensures FlowInv(Step(db, a).0)
  {
    var next := Step(db, a).0;
    OpenKeepsInv(db, a);
    if next != db {
      var ws, ws' := db.schedules[a.s].windows, next.schedules[a.s].windows;
      var w := ws'[|ws|];
      assert ws' == ws + [w] && FindDue(ws, w.due) == None;
      forall t, k
        ensures WorkAt(next, t, k)
      {
        assert WorkAt(db, t, k);
        if t == a.s && k == |ws| {
          forall r | r in w.recipients
            ensures !(RecipientSent(next, t, w, r) || RecipientExhausted(next, t, w, r))
          {
            var id := DeliveryId(t, r, w.due);
            assert id in db.deliveries ==> RowInv(db, id, db.deliveries[id]);
          }
        } else if t in db.schedules && 0 <= k < |db.schedules[t].windows| {
          WorkFrame(db, next, t, k);
        }
      }
      forall id | id in next.deliveries
        ensures PendingIfActive(next, id)
      {
        assert PendingIfActive(db, id);
        if Active(db.deliveries[id]) {
          ActiveRowWindow(db, id);
        }
      }
    }
  }

  /** Neither the clock nor a new schedule without windows touches a window's work. */
  lemma QuietKeepsFlow(db: Db, a: Action)
    requires FlowInv(db) && (a.Tick? || a.NewSchedule?)
    ensures FlowInv(Step(db, a).0)
  {
    StepKeepsInv(db, a);
    var next := Step(db, a).0;
    forall t, k
      ensures WorkAt(next, t, k)
    {
      assert WorkAt(db, t, k);
      if t in db.schedules && 0 <= k < |db.schedules[t].windows| {
        WorkFrame(db, next, t, k);
      }
    }
    forall id | id in next.deliveries
      ensures PendingIfActive(next, id)
    {
      assert PendingIfActive(db, id);
      assert RowInv(db, id, db.deliveries[id]);
    }
  }

  lemma StepKeepsFlow(db: Db, a: Action)
    requires FlowInv(db) && !a.ReportClose?
    ensures FlowInv(Step(db, a).0)
  {
    match a
    case Tick(_) => QuietKeepsFlow(db, a);
    case NewSchedule(_) => QuietKeepsFlow(db, a);
    case Open(_, _, _, _, _, _, _) => OpenKeepsFlow(db, a);
    case DoClaim(lag, id, end, key) => ClaimKeepsFlow(db, lag, id, end, key);
    case DoFinalize(_, _, _, _, _, _) => FinalizeKeepsFlow(db, a);
    case Noop(s, due, end) => NoopKeepsFlow(db, s, due, end);
  }

  lemma {:induction false} RunKeepsFlow(db: Db, run: seq<Action>)
    requires FlowInv(db) && DeliveryFlow(run)
    ensures FlowInv(Run(db, run))
    decreases |run|
  {
    if run != [] {
      assert run[0] in run;
      StepKeepsFlow(db, run[0]);
      RunKeepsFlow(Step(db, run[0]).0, run[1..]);
    }
  }
}
