/**
 The report tables and the report directory as a value, and every transaction on them as one step.
 The rows are those of one tenant. `FOR UPDATE` on the report row serialises publication, reclaim
 and deletion. Every time is a parameter, because the code mixes process and database clocks.
 */
module ReportModel {
  import opened Basics
  import opened ReportPaths

  type Body = string

  datatype ReportStatus = Generating | Generated | Failed

  /** A row of reports with its report_items in ordinal order. `artifact` stands for sha256. */
  datatype Report = Report(
    trigger: Trigger, due: Due, status: ReportStatus, path: string, attempts: nat, token: nat,
    claimedAt: Time, deleted: bool, items: seq<Item>, artifact: Option<Body>)

  /** What a granted claim hands to a worker. */
  datatype Work = Work(
    id: string, trigger: Trigger, due: Due, stored: string, token: nat, attempts: nat, notices: seq<ReportNotice>)

  /** The matches fixed in a digest window: match and notice ids. */
  type WindowItems = seq<(Id, Id)>

  /**
   `works` records every claim ever granted, `published` what each token's holder was told it had
   written, and `interrupted` the reports whose deletion died after removing the file and that have
   not been finalised since.
   */
  datatype Db = Db(
    tenant: string, windows: map<(Id, Time), WindowItems>, reports: map<string, Report>,
    files: map<string, Body>, nextToken: nat,
    works: set<Work>, published: map<nat, Body>, interrupted: set<string>)

  datatype Outcome = Refused | Skipped | Granted(work: Work) | Done

  /** The file the worker writes: reportRelativePath of its work. */
  function FileOf(tenant: string, w: Work): Option<string> {
    RelativePath(tenant, w.id, w.due, w.trigger, w.stored, Names(w.notices))
  }

  /** The row of a schedule's report for a due time, deleted or not. */
  predicate IsScheduled(db: Db, id: string, schedule: Id, at: Time) {
    id in db.reports && db.reports[id].trigger == Scheduled(schedule) && db.reports[id].due.at == at
  }

  ghost function ScheduledReport(db: Db, schedule: Id, at: Time): (r: Option<string>)
    ensures r.Some? ==> IsScheduled(db, r.value, schedule, at)
    ensures r.None? ==> forall id <- db.reports :: !IsScheduled(db, id, schedule, at)
  {
    if id :| id in db.reports && IsScheduled(db, id, schedule, at) then Some(id) else None
  }

  /** The conflict update and the reclaim accept a failed row, or an abandoned one, below the cap. */
  predicate Takeable(status: ReportStatus, attempts: nat, claimedAt: Time, deleted: bool, now: Time) {
    && !deleted && attempts < MAX_ATTEMPTS
    && ((status == Generating && claimedAt < now - LEASE) || status == Failed)
  }

  predicate Reclaimable(r: Report, now: Time) {
    Takeable(r.status, r.attempts, r.claimedAt, r.deleted, now)
  }

  predicate HasMatch(items: seq<Item>, m: Id) {
    exists it <- items :: it.matchId == m
  }

  /** INSERT ... SELECT from the window's items ON CONFLICT (match) DO NOTHING, with today's rule names. */
  function SnapshotItems(items: seq<Item>, window: WindowItems, names: map<Id, string>): seq<Item>
    decreases |window|
  {
    if window == [] then items
    else
      var (m, n) := window[0];
      var name := if m in names then names[m] else "";
      SnapshotItems(if HasMatch(items, m) then items else items + [Item(m, n, name)], window[1..], names)
  }

  /** Write a claimed row and hand its work out. */
  function Grant(db: Db, id: string, r: Report): (Db, Outcome) {
    var w := Work(id, r.trigger, r.due, r.path, r.token, r.attempts, Grouped(r.items));
    (db.(reports := db.reports[id := r], nextToken := db.nextToken + 1, works := db.works + {w}), Granted(w))
  }

  function Fresh(db: Db, id: string, trigger: Trigger, due: Due, now: Time, items: seq<Item>): Report {
    Report(trigger, due, Generating, Placeholder(db.tenant, id), 1, db.nextToken, now, false, items, None)
  }

  function Again(db: Db, r: Report, attempts: nat, now: Time, items: seq<Item>): Report {
    r.(status := Generating, attempts := attempts, token := db.nextToken, claimedAt := now, items := items)
  }

  /** A generated id is a new uuid, and a due time prints as digits. */
  predicate NewId(db: Db, id: string, due: Due) {
    id !in db.reports && SafeId(id) && PrintedDue(due)
  }

  /** claimScheduledReport for the window that is due at `due`. */
  ghost function ClaimScheduled(db: Db, id: string, schedule: Id, due: Due, now: Time,
                                names: map<Id, string>): (Db, Outcome) {
    var key := (schedule, due.at);
    if key !in db.windows || db.windows[key] == [] then (db, Skipped)
    else
      match ScheduledReport(db, schedule, due.at)
      case None =>
        if !NewId(db, id, due) then (db, Refused)
        else Grant(db, id, Fresh(db, id, Scheduled(schedule), due, now, SnapshotItems([], db.windows[key], names)))
      case Some(prior) =>
        var r := db.reports[prior];
        if r.deleted || !Reclaimable(r, now) then (db, Skipped)
        else Grant(db, prior, Again(db, r, r.attempts + 1, now, SnapshotItems(r.items, db.windows[key], names)))
  }

  function ClaimManual(db: Db, id: string, due: Due, now: Time, items: seq<Item>): (Db, Outcome) {
    if items == [] then (db, Skipped)
    else if !NewId(db, id, due) then (db, Refused)
    else Grant(db, id, Fresh(db, id, Manual, due, now, items))
  }

  function Reclaim(db: Db, id: string, now: Time): (Db, Outcome) {
    if id !in db.reports || !Reclaimable(db.reports[id], now) then (db, Skipped)
    else var r := db.reports[id]; Grant(db, id, Again(db, r, r.attempts + 1, now, r.items))
  }

  /** The operator's retry: a failed report starts over at its first attempt. */
  function Retry(db: Db, id: string, now: Time): (Db, Outcome) {
    if id !in db.reports || db.reports[id].deleted || db.reports[id].status != Failed then (db, Skipped)
    else var r := db.reports[id]; Grant(db, id, Again(db, r, 1, now, r.items))
  }

  /** The row lock of withReportClaim. */
  predicate HoldsClaim(db: Db, w: Work) {
    && w in db.works && w.id in db.reports
    && var r := db.reports[w.id];
    && r.token == w.token && r.status == Generating && !r.deleted
  }

  /** The write-once rule of the file store. */
  predicate Writable(files: map<string, Body>, path: string, body: Body) {
    path in files ==> files[path] == body
  }

  /** Write the worker's file under the row lock; `reported` is false when the write ends in an error after all. */
  function Publish(db: Db, w: Work, body: Body, reported: bool): (Db, Outcome) {
    var path := FileOf(db.tenant, w);
    if !HoldsClaim(db, w) || path.None? || !Writable(db.files, path.value, body) then (db, Refused)
    else
      (db.(files := db.files[path.value := body],
           published := if reported then db.published[w.token := body] else db.published),
       if reported then Done else Refused)
  }

  /** The row the finalising updates look for: they do not test deleted_at. */
  predicate Held(db: Db, w: Work) {
    && w in db.works && w.id in db.reports
    && var r := db.reports[w.id];
    && r.status == Generating && r.token == w.token && r.attempts == w.attempts
  }

  /** finalizeReport by a worker that was told its file is in place; `windowOk` is its window update. */
  function FinalizeReport(db: Db, w: Work, windowOk: bool): (Db, Outcome) {
    var path := FileOf(db.tenant, w);
    if w.token !in db.published || path.None? || !Held(db, w) || (w.trigger.Scheduled? && !windowOk) then (db, Refused)
    else
      var r := db.reports[w.id].(status := Generated, path := path.value, artifact := Some(db.published[w.token]));
      (db.(reports := db.reports[w.id := r], interrupted := db.interrupted - {w.id}), Done)
  }

  function FinalizeFailure(db: Db, w: Work): (Db, Outcome) {
    if !Held(db, w) then (db, Refused)
    else (db.(reports := db.reports[w.id := db.reports[w.id].(status := Failed)]), Done)
  }

  datatype Removal = Removes | CannotRemove | DiesAfterRemove

  /** The path deleteReport removes, rebuilt from the distinct rule names when the row has only its placeholder. */
  function DeletePath(tenant: string, id: string, r: Report): Option<string> {
    if r.status == Failed && r.path == Placeholder(tenant, id) then
      RelativePath(tenant, id, r.due, r.trigger, r.path, ItemNames(r.items))
    else
      Some(r.path)
  }

  function Tombstone(r: Report): Report {
    r.(deleted := true, path := "", artifact := None, items := [])
  }

  function Delete(db: Db, id: string, removal: Removal): (Db, Outcome) {
    if id !in db.reports || db.reports[id].status == Generating then (db, Refused)
    else if db.reports[id].deleted then (db, Skipped)
    else
      var r := db.reports[id];
      var path := DeletePath(db.tenant, id, r);
      if path.None? || !(db.tenant + "/" <= path.value) then (db, Refused)
      else
        match removal
        case Removes => (db.(reports := db.reports[id := Tombstone(r)], files := db.files - {path.value}), Done)
        case CannotRemove => (db, Refused)
        case DiesAfterRemove => (db.(files := db.files - {path.value}, interrupted := db.interrupted + {id}), Refused)
  }

  // ---- runs ----

  datatype Action =
    | FixWindow(schedule: Id, at: Time, window: WindowItems)
    | DoClaimScheduled(id: string, schedule: Id, due: Due, now: Time, names: map<Id, string>)
    | DoClaimManual(id: string, due: Due, now: Time, items: seq<Item>)
    | DoReclaim(id: string, now: Time)
    | DoRetry(id: string, now: Time)
    | DoPublish(work: Work, body: Body, reported: bool)
    | DoFinalize(work: Work, windowOk: bool)
    | DoFail(work: Work)
    | DoDelete(id: string, removal: Removal)

  ghost function Step(db: Db, a: Action): (Db, Outcome) {
    match a
    case FixWindow(schedule, at, window) =>
      if (schedule, at) in db.windows then (db, Skipped)
      else (db.(windows := db.windows[(schedule, at) := window]), Done)
    case DoClaimScheduled(id, schedule, due, now, names) => ClaimScheduled(db, id, schedule, due, now, names)
    case DoClaimManual(id, due, now, items) => ClaimManual(db, id, due, now, items)
    case DoReclaim(id, now) => Reclaim(db, id, now)
    case DoRetry(id, now) => Retry(db, id, now)
    case DoPublish(work, body, reported) => Publish(db, work, body, reported)
    case DoFinalize(work, windowOk) => FinalizeReport(db, work, windowOk)
    case DoFail(work) => FinalizeFailure(db, work)
    case DoDelete(id, removal) => Delete(db, id, removal)
  }

  /** Any interleaving of schedulers, operators, workers with any of the works ever granted, and deletions. */
  ghost function Run(db: Db, run: seq<Action>): Db
    decreases |run|
  {
    if run == [] then db else Run(Step(db, run[0]).0, run[1..])
  }

  function Empty(tenant: string): Db {
    Db(tenant, map[], map[], map[], 0, {}, map[], {})
  }
}
