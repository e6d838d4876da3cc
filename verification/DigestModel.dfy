/**
 The digest tables as a value, and every transaction on them as one step.

 The rows are those of one tenant: every statement names the tenant, and each transaction sets it.
 `FOR UPDATE` on the window row serialises the transactions that read and change a window.
 */
module DigestModel {
  import opened Basics
  import DueTimes

  datatype WindowStatus = WindowPending | WindowCompleted | WindowFailed

  datatype DeliveryStatus = Waiting | Sending | Sent | Failed

  /** The part of a match row that never changes after its insertion. */
  datatype Match = Match(id: Id, createdAt: Time)

  /** A row of digest_windows with the items and recipients snapshotted into it. */
  datatype Window = Window(
    due: Time, end: Time, status: WindowStatus,
    since: Option<Time>, items: set<Match>, recipients: set<Id>)

  /** A schedule row and its windows, in order of creation. */
  datatype Schedule = Schedule(lastSuccess: Option<Time>, windows: seq<Window>)

  /** The natural identity of a delivery, unique in its table. */
  datatype DeliveryId = DeliveryId(schedule: Id, recipient: Id, due: Time)

  datatype Delivery = Delivery(
    key: string, end: Time, status: DeliveryStatus, attempts: nat,
    claimedAt: Time, token: nat, sentAt: Option<Time>)

  /** `clock` is the database clock; `nextToken` is the next fencing token to be generated. */
  datatype Db = Db(
    clock: Time, schedules: map<Id, Schedule>,
    deliveries: map<DeliveryId, Delivery>, nextToken: nat)

  /** What a transaction reports. A rejected transaction was rolled back. */
  datatype Outcome =
    | Rejected
    | Unchanged
    | Opened(due: Time, end: Time, created: bool)
    | Claimed(attempts: nat, token: nat)
    | Finalized
    | Closed
    | Deferred

  // ---- looking rows up ----

  /** The row with this due time and end. */
  function FindWindow(ws: seq<Window>, due: Time, end: Time): (r: Option<nat>)
    ensures r.Some? ==> r.value < |ws| && ws[r.value].due == due && ws[r.value].end == end
    ensures r.None? ==> forall i :: 0 <= i < |ws| ==> ws[i].due != due || ws[i].end != end
  {
    if ws == [] then None
    else if ws[|ws| - 1].due == due && ws[|ws| - 1].end == end then Some(|ws| - 1)
    else FindWindow(ws[..|ws| - 1], due, end)
  }

  /** A pending row, if there is one. */
  function FindPending(ws: seq<Window>): (r: Option<nat>)
    ensures r.Some? ==> r.value < |ws| && ws[r.value].status == WindowPending
    ensures r.None? ==> forall i :: 0 <= i < |ws| ==> ws[i].status != WindowPending
  {
    if ws == [] then None
    else if ws[|ws| - 1].status == WindowPending then Some(|ws| - 1)
    else FindPending(ws[..|ws| - 1])
  }

  /** The index of window (s, due, end), when it exists and is pending. */
  function LockPending(db: Db, s: Id, due: Time, end: Time): Option<nat> {
    if s !in db.schedules then None
    else
      var ws := db.schedules[s].windows;
      var i := FindWindow(ws, due, end);
      if i.Some? && ws[i.value].status == WindowPending then i else None
  }

  /** The delivery that owns an idempotency key. */
  ghost function KeyOwner(ds: map<DeliveryId, Delivery>, key: string): (r: Option<DeliveryId>)
    ensures r.Some? ==> r.value in ds && ds[r.value].key == key
    ensures r.None? ==> forall id <- ds :: ds[id].key != key
  {
    if id :| id in ds && ds[id].key == key then Some(id) else None
  }

  // ---- closing windows ----

  /** The delivery a window's recipient is joined with has been sent. */
  predicate RecipientSent(db: Db, s: Id, w: Window, r: Id) {
    var id := DeliveryId(s, r, w.due);
    id in db.deliveries && db.deliveries[id].end == w.end && db.deliveries[id].status == Sent
  }

  /** The delivery has used up its attempts. */
  predicate RecipientExhausted(db: Db, s: Id, w: Window, r: Id) {
    var id := DeliveryId(s, r, w.due);
    && id in db.deliveries && db.deliveries[id].end == w.end
    && db.deliveries[id].status == Failed && db.deliveries[id].attempts >= MAX_ATTEMPTS
  }

  predicate AllSent(db: Db, s: Id, w: Window) {
    forall r <- w.recipients :: RecipientSent(db, s, w, r)
  }

  predicate AllTerminal(db: Db, s: Id, w: Window) {
    forall r <- w.recipients :: RecipientSent(db, s, w, r) || RecipientExhausted(db, s, w, r)
  }

  predicate AnyExhausted(db: Db, s: Id, w: Window) {
    exists r <- w.recipients :: RecipientExhausted(db, s, w, r)
  }

  /** Give window i its final status and advance the schedule to the window's end. */
  function CloseWindow(db: Db, s: Id, i: nat, status: WindowStatus): Db
    requires s in db.schedules && i < |db.schedules[s].windows|
  {
    var sc := db.schedules[s];
    var w := sc.windows[i];
    db.(schedules := db.schedules[s := Schedule(
      Some(Greatest(sc.lastSuccess, w.end)),
      sc.windows[i := w.(status := status)])])
  }

  /** completeScheduleWindow: close the window once every recipient is terminal. */
  function CompleteWindow(db: Db, s: Id, due: Time, end: Time): Db {
    match LockPending(db, s, due, end)
    case None => db
    case Some(i) =>
      var w := db.schedules[s].windows[i];
      if w.recipients != {} && (AllSent(db, s, w) || (AllTerminal(db, s, w) && AnyExhausted(db, s, w))) then
        CloseWindow(db, s, i, if AllSent(db, s, w) then WindowCompleted else WindowFailed)
      else
        db
  }

  // ---- opening windows ----

  predicate After(since: Option<Time>, t: Time) {
    since.Some? ==> since.value < t
  }

  /** The matches that became visible in the half-open interval (since, end]. */
  function Snapshot(visible: set<Match>, since: Option<Time>, end: Time): set<Match> {
    set m | m in visible && After(since, m.createdAt) && m.createdAt <= end
  }

  /**
   Select the schedule's pending window, or fix a new one that ends at `now`. `visible` are the
   matches of enabled filters whose notice is still open; `recipients` the enabled recipients.
   */
  function OpenWindow(db: Db, s: Id, now: Time, hour: int, minute: int, weekdays: seq<int>,
                      visible: set<Match>, recipients: set<Id>): (Db, Outcome) {
    if s !in db.schedules then (db, Rejected)
    else
      var sc := db.schedules[s];
      match FindPending(sc.windows)
      case Some(i) =>
        if sc.windows[i].end < sc.windows[i].due then (db, Unchanged)
        else (db, Opened(sc.windows[i].due, sc.windows[i].end, false))
      case None =>
        match DueTimes.LatestDue(now, sc.lastSuccess, hour, minute, weekdays)
        case None => (db, Unchanged)
        case Some(due) =>
          match FindDue(sc.windows, due)
          case Some(i) => (db, Opened(due, sc.windows[i].end, false))
          case None =>
            var items := Snapshot(visible, sc.lastSuccess, now);
            var w := Window(due, now, WindowPending, sc.lastSuccess, items, recipients);
            (db.(schedules := db.schedules[s := sc.(windows := sc.windows + [w])]), Opened(due, now, true))
  }

  /** The row with this due time: (schedule, due) is unique. */
  function FindDue(ws: seq<Window>, due: Time): (r: Option<nat>)
    ensures r.Some? ==> r.value < |ws| && ws[r.value].due == due
    ensures r.None? ==> forall i :: 0 <= i < |ws| ==> ws[i].due != due
  {
    if ws == [] then None
    else if ws[|ws| - 1].due == due then Some(|ws| - 1)
    else FindDue(ws[..|ws| - 1], due)
  }

  // ---- claiming and finalising deliveries ----

  /** Expiry as `Claim` sees it: claimed_at < now() - interval '15 minutes'. */
  predicate Expired(d: Delivery, now: Time) {
    d.claimedAt < now - LEASE
  }

  /** Liveness as the no-op completion sees it: claimed_at >= clock_timestamp() - interval '15 minutes'. */
  predicate LeaseLive(d: Delivery, now: Time) {
    d.status == Sending && d.claimedAt >= now - LEASE
  }

  predicate Claimable(d: Delivery, now: Time) {
    || (d.status == Waiting && d.attempts < MAX_ATTEMPTS)
    || (d.status == Failed && d.attempts < MAX_ATTEMPTS)
    || (d.status == Sending && Expired(d, now))
  }

  function Put(db: Db, id: DeliveryId, d: Delivery): Db {
    db.(deliveries := db.deliveries[id := d])
  }

  /** Adopt the caller's key for a delivery stored under an older key, unless the key is taken. */
  ghost function AdoptKey(db: Db, id: DeliveryId, end: Time, key: string): Db {
    if id in db.deliveries && db.deliveries[id].end == end && KeyOwner(db.deliveries, key) == None then
      Put(db, id, db.deliveries[id].(key := key))
    else
      db
  }

  /** The row a successful conflict update leaves behind. */
  function Reclaimed(d: Delivery, now: Time, token: nat): Delivery {
    d.(status := if d.status == Sending && d.attempts >= MAX_ATTEMPTS then Failed else Sending,
       attempts := if d.attempts < MAX_ATTEMPTS then d.attempts + 1 else d.attempts,
       sentAt := None, claimedAt := now, token := token)
  }

  /** The insert without a key conflict: it must meet the natural-identity and recipient constraints. */
  function InsertClaim(db: Db, now: Time, id: DeliveryId, end: Time, key: string, recipients: set<Id>): (Db, Outcome) {
    if id in db.deliveries || id.recipient !in recipients then (db, Rejected)
    else
      var d := Delivery(key, end, Sending, 1, now, db.nextToken, None);
      (Put(db, id, d).(nextToken := db.nextToken + 1), Claimed(1, db.nextToken))
  }

  /** The conflict update of the row that already has the caller's key. */
  function RenewClaim(db: Db, now: Time, id: DeliveryId, end: Time): (Db, Outcome)
    requires id in db.deliveries
  {
    var d := db.deliveries[id];
    if d.end == end && Claimable(d, now) then
      var d' := Reclaimed(d, now, db.nextToken);
      var db' := Put(db, id, d').(nextToken := db.nextToken + 1);
      if d'.status == Sending then (db', Claimed(d'.attempts, d'.token))
      else (CompleteWindow(db', id.schedule, id.due, end), Unchanged)
    else
      (CompleteWindow(db, id.schedule, id.due, end), Unchanged)
  }

  /** INSERT ... ON CONFLICT (tenant_id, idempotency_key) DO UPDATE, once the window is locked. */
  ghost function Upsert(db: Db, now: Time, id: DeliveryId, end: Time, key: string, recipients: set<Id>): (Db, Outcome) {
    match KeyOwner(db.deliveries, key)
    case None => InsertClaim(db, now, id, end, key, recipients)
    case Some(owner) =>
      if owner == id then RenewClaim(db, now, id, end)
      else (CompleteWindow(db, id.schedule, id.due, end), Unchanged)
  }

  /**
   Claim a delivery. `lag` is how long ago the transaction began: now() is its start, which can be
   earlier than the moment its locks are granted.
   */
  ghost function Claim(db: Db, lag: nat, id: DeliveryId, end: Time, key: string): (Db, Outcome) {
    if end < id.due then (db, Rejected)
    else
      match LockPending(db, id.schedule, id.due, end)
      case None => (db, Unchanged)
      case Some(i) =>
        Upsert(AdoptKey(db, id, end, key), db.clock - lag, id, end, key,
               db.schedules[id.schedule].windows[i].recipients)
  }

  /** The row the finalising updates look for. */
  predicate Held(db: Db, id: DeliveryId, end: Time, key: string, token: nat, attempts: int) {
    && id in db.deliveries
    && var d := db.deliveries[id];
    && d.key == key && d.end == end && d.token == token && d.status == Sending && d.attempts == attempts
  }

  /** Finalise a claim as sent (with its time) or as failed (`sentAt == None`). */
  function Finalize(db: Db, id: DeliveryId, end: Time, key: string, token: nat, attempts: int,
                    sentAt: Option<Time>): (Db, Outcome) {
    if attempts < 1 || attempts > MAX_ATTEMPTS || end < id.due then (db, Rejected)
    else if LockPending(db, id.schedule, id.due, end) == None then (db, Rejected)
    else if !Held(db, id, end, key, token, attempts) then (db, Rejected)
    else
      var d := db.deliveries[id];
      var d' := if sentAt.Some? then d.(status := Sent, sentAt := sentAt) else d.(status := Failed);
      (CompleteWindow(Put(db, id, d'), id.schedule, id.due, end), Finalized)
  }

  // ---- closing a window that has nothing to send ----

  predicate InWindow(id: DeliveryId, d: Delivery, s: Id, due: Time, end: Time) {
    id.schedule == s && id.due == due && d.end == end
  }

  predicate ActiveLease(db: Db, s: Id, due: Time, end: Time) {
    exists id <- db.deliveries :: InWindow(id, db.deliveries[id], s, due, end) && LeaseLive(db.deliveries[id], db.clock)
  }

  /** Every delivery of the window that has not been sent becomes failed. */
  function CancelUnsent(ds: map<DeliveryId, Delivery>, s: Id, due: Time, end: Time): map<DeliveryId, Delivery> {
    map id | id in ds ::
      if InWindow(id, ds[id], s, due, end) && ds[id].status != Sent then ds[id].(status := Failed) else ds[id]
  }

  /** completeNoopDigestWindow */
  function CompleteNoop(db: Db, s: Id, due: Time, end: Time): (Db, Outcome) {
    if end < due || s !in db.schedules then (db, Rejected)
    else
      match FindWindow(db.schedules[s].windows, due, end)
      case None => (db, Rejected)
      case Some(i) =>
        match db.schedules[s].windows[i].status
        case WindowFailed => (db, Rejected)
        case WindowCompleted => (db, Closed)
        case WindowPending =>
          if ActiveLease(db, s, due, end) then (db, Deferred)
          else
            (CloseWindow(db.(deliveries := CancelUnsent(db.deliveries, s, due, end)), s, i, WindowCompleted), Closed)
  }

  /** The window part of finalizeReport: it does not look at deliveries. */
  function CloseForReport(db: Db, s: Id, due: Time, end: Time): (Db, Outcome) {
    if s !in db.schedules then (db, Rejected)
    else
      match FindWindow(db.schedules[s].windows, due, end)
      case None => (db, Rejected)
      case Some(i) =>
        if db.schedules[s].windows[i].status == WindowFailed then (db, Rejected)
        else (CloseWindow(db, s, i, WindowCompleted), Closed)
  }

  // ---- runs ----

  datatype Action =
    | Tick(elapsed: nat)
    | NewSchedule(s: Id)
    | Open(s: Id, now: Time, hour: int, minute: int, weekdays: seq<int>, visible: set<Match>, recipients: set<Id>)
    | DoClaim(lag: nat, id: DeliveryId, end: Time, key: string)
    | DoFinalize(id: DeliveryId, end: Time, key: string, token: nat, attempts: int, sentAt: Option<Time>)
    | Noop(s: Id, due: Time, end: Time)
    | ReportClose(s: Id, due: Time, end: Time)

  ghost function Step(db: Db, a: Action): (Db, Outcome) {
    match a
    case Tick(elapsed) => (db.(clock := db.clock + elapsed), Unchanged)
    case NewSchedule(s) =>
      if s in db.schedules then (db, Rejected)
      else (db.(schedules := db.schedules[s := Schedule(None, [])]), Unchanged)
    case Open(s, now, hour, minute, weekdays, visible, recipients) =>
      OpenWindow(db, s, now, hour, minute, weekdays, visible, recipients)
    case DoClaim(lag, id, end, key) => Claim(db, lag, id, end, key)
    case DoFinalize(id, end, key, token, attempts, sentAt) => Finalize(db, id, end, key, token, attempts, sentAt)
    case Noop(s, due, end) => CompleteNoop(db, s, due, end)
    case ReportClose(s, due, end) => CloseForReport(db, s, due, end)
  }

  /** The state after a sequence of transactions, in any order, by any number of workers. */
  ghost function Run(db: Db, run: seq<Action>): Db
    decreases |run|
  {
    if run == [] then db else Run(Step(db, run[0]).0, run[1..])
  }

  /** The steps of the mail flow alone. */
  predicate DeliveryFlow(run: seq<Action>) {
    forall a <- run :: !a.ReportClose?
  }

  const EMPTY: Db := Db(0, map[], map[], 0)
}
