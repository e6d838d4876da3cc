/**
 The report transactions as they run against the tables and the report directory: each method makes
 the statements of its source in their order and is proved to be the step that `ReportModel` gives it.
 */
module ReportDatabase {
  import opened Basics
  import opened ReportPaths
  import opened Model = ReportModel
  import opened ReportInvariant
  import opened ReportTheorems

  /** Where a write can end in an error: before the file is linked into place, or while tidying up after it. */
  datatype WriteFault = NoFault | BeforeLink | AfterLink

  /** The report directory. SHA-256 is modelled by the content itself. */
  class FileStore {
    var files: map<string, Body>

    constructor ()
      ensures files == map[]
    {
      files := map[];
    }

    /** Write once: an existing file is accepted when it has this content and never replaced. */
    method Write(path: string, body: Body, fault: WriteFault) returns (told: bool)
      modifies this
      ensures var written := Writable(old(files), path, body) && fault != BeforeLink;
        && files == (if written then old(files)[path := body] else old(files))
        && told == (written && (fault == NoFault || path in old(files)))
      ensures forall p <- old(files) :: p in files && files[p] == old(files)[p]
    {
      if path in files {
        told := files[path] == body && fault != BeforeLink;
        assert told ==> files == files[path := body];
        return;
      }
      if fault == BeforeLink {
        return false;
      }
      files := files[path := body];
      return fault == NoFault;
    }

    /** A missing file is removed successfully. */
    method Remove(path: string, works: bool) returns (removed: bool)
      modifies this
      ensures removed == (works || path !in old(files))
      ensures files == if works then old(files) - {path} else old(files)
    {
      if path !in files {
        assert files - {path} == files;
        return true;
      }
      if !works {
        return false;
      }
      files := files - {path};
      return true;
    }
  }

  /** How one attempt goes: `stops` is a cancelled context, `now` the time of the reclaim that follows it. */
  datatype Luck = Luck(renders: bool, write: WriteFault, finalizes: bool, settles: bool, stops: bool, now: Time)

  predicate Healthy(luck: Luck) {
    luck.renders && luck.write == NoFault && luck.finalizes
  }

  class Database {
    const tenant: string
    const store: FileStore
    var windows: map<(Id, Time), WindowItems>
    var reports: map<string, Report>
    var nextToken: nat
    ghost var works: set<Work>
    ghost var published: map<nat, Body>
    ghost var interrupted: set<string>

    ghost function State(): Db
      reads this, store
    {
      Db(tenant, windows, reports, store.files, nextToken, works, published, interrupted)
    }

    ghost predicate Valid()
      reads this, store
    {
      Inv(State())
    }

    constructor (tenant: string, store: FileStore)
      requires SafeId(tenant) && store.files == map[]
      ensures this.tenant == tenant && this.store == store
      ensures Valid() && State() == Empty(tenant)
    {
      this.tenant, this.store := tenant, store;
      windows, reports, nextToken := map[], map[], 0;
      works, published, interrupted := {}, map[], {};
    }

    // ---- claims ----

    /** The row found through the unique index on a schedule's due times. */
    method FindScheduled(schedule: Id, at: Time) returns (r: Option<string>)
      requires ScheduledUnique(reports)
      ensures r == ScheduledReport(State(), schedule, at)
    {
      var rest := reports.Keys;
      while rest != {}
        invariant rest <= reports.Keys
        invariant forall id :: id in reports.Keys - rest ==> !IsScheduled(State(), id, schedule, at)
        decreases rest
      {
        var id :| id in rest;
        if reports[id].trigger == Scheduled(schedule) && reports[id].due.at == at {
          assert IsScheduled(State(), id, schedule, at);
          ghost var found := ScheduledReport(State(), schedule, at).value;
          assert SameSchedule(reports[id], reports[found]);
          return Some(id);
        }
        rest := rest - {id};
      }
      return None;
    }

    /** INSERT ... SELECT ... ON CONFLICT (tenant_id, report_id, match_id) DO NOTHING */
    method InsertItems(items: seq<Item>, window: WindowItems, names: map<Id, string>) returns (r: seq<Item>)
      ensures r == SnapshotItems(items, window, names)
    {
      r := items;
      var i := 0;
      while i < |window|
        invariant 0 <= i <= |window|
        invariant SnapshotItems(r, window[i..], names) == SnapshotItems(items, window, names)
      {
        var (m, n) := window[i];
        assert window[i..][1..] == window[i + 1..] && window[i..][0] == window[i];
        if !HasMatch(r, m) {
          r := r + [Item(m, n, if m in names then names[m] else "")];
        }
        i := i + 1;
      }
    }

    method GrantRow(id: string, r: Report) returns (work: Work)
      modifies this
      ensures (State(), Granted(work)) == Grant(old(State()), id, r)
    {
      reports := reports[id := r];
      nextToken := nextToken + 1;
      var notices := LoadReportNotices(r.items);
      work := Work(id, r.trigger, r.due, r.path, r.token, r.attempts, notices);
      works := works + {work};
    }

    method ClaimScheduled(id: string, schedule: Id, due: Due, now: Time, names: map<Id, string>)
      returns (outcome: Outcome)
      requires Valid()
      modifies this
      ensures Valid()
      ensures (State(), outcome) == Model.ClaimScheduled(old(State()), id, schedule, due, now, names)
    {
      hide Inv, Grant, SnapshotItems;
      ScheduledKeepsInv(State(), DoClaimScheduled(id, schedule, due, now, names));
      UniqueRows(State());
      var key := (schedule, due.at);
      var existing := FindScheduled(schedule, due.at);
      var hasItems := key in windows && windows[key] != [];
      if !hasItems || (existing.Some? && reports[existing.value].deleted) {
        return Skipped;
      }
      if existing.None? {
        if id in reports || !SafeId(id) || !PrintedDue(due) {
          return Refused;
        }
        var inserted := InsertItems([], windows[key], names);
        var path := Join(["reports", tenant, id + ".html"]);
        var r := Report(Scheduled(schedule), due, Generating, path, 1, nextToken, now, false, inserted, None);
        var work := GrantRow(id, r);
        return Granted(work);
      }
      var r := reports[existing.value];
      if !Reclaimable(r, now) {
        return Skipped;
      }
      var items := InsertItems(r.items, windows[key], names);
      var work := GrantRow(existing.value,
        r.(status := Generating, attempts := r.attempts + 1, token := nextToken, claimedAt := now, items := items));
      return Granted(work);
    }

    lemma UniqueRows(db: Db)
      requires Inv(db)
      ensures ScheduledUnique(db.reports)
    {
    }

    method ClaimManual(id: string, due: Due, now: Time, items: seq<Item>) returns (outcome: Outcome)
      requires Valid()
      modifies this
      ensures Valid()
      ensures (State(), outcome) == Model.ClaimManual(old(State()), id, due, now, items)
    {
      hide Inv, Grant;
      StepKeepsInv(State(), DoClaimManual(id, due, now, items));
      if items == [] {
        return Skipped;
      }
      if id in reports || !SafeId(id) || !PrintedDue(due) {
        return Refused;
      }
      var path := Join(["reports", tenant, id + ".html"]);
      var work := GrantRow(id, Report(Manual, due, Generating, path, 1, nextToken, now, false, items, None));
      return Granted(work);
    }

    method Reclaim(id: string, now: Time) returns (outcome: Outcome)
      requires Valid()
      modifies this
      ensures Valid()
      ensures (State(), outcome) == Model.Reclaim(old(State()), id, now)
    {
      hide Inv, Grant;
      StepKeepsInv(State(), DoReclaim(id, now));
      if id !in reports || reports[id].deleted || reports[id].attempts >= 3 {
        return Skipped;
      }
      var r := reports[id];
      if !((r.status == Generating && r.claimedAt < now - LEASE) || r.status == Failed) {
        return Skipped;
      }
      var again := r.(status := Generating, attempts := r.attempts + 1, token := nextToken, claimedAt := now);
      var work := GrantRow(id, again);
      return Granted(work);
    }

    method Retry(id: string, now: Time) returns (outcome: Outcome)
      requires Valid()
      modifies this
      ensures Valid()
      ensures (State(), outcome) == Model.Retry(old(State()), id, now)
    {
      hide Inv, Grant;
      StepKeepsInv(State(), DoRetry(id, now));
      if id !in reports || reports[id].deleted || reports[id].status != Failed {
        return Skipped;
      }
      var work := GrantRow(id, reports[id].(status := Generating, attempts := 1, token := nextToken, claimedAt := now));
      return Granted(work);
    }

    // ---- working ----

    /** Publish the worker's file while its row is locked; `told` is whether the worker learns of success. */
    method WithReportClaim(w: Work, path: string, body: Body, fault: WriteFault) returns (told: bool)
      requires Valid() && w in works && FileOf(tenant, w) == Some(path)
      modifies this, store
      ensures Valid()
      ensures State() == if fault == BeforeLink then old(State()) else Publish(old(State()), w, body, told).0
      ensures fault == NoFault ==> told == (Publish(old(State()), w, body, true).1 == Done)
      ensures told ==> Publish(old(State()), w, body, true).1 == Done && fault != BeforeLink
      ensures told ==> w.token in published && published[w.token] == body && InFiles(State(), path, body)
      ensures reports == old(reports) && works == old(works)
    {
      hide Inv, FileOf;
      PublishKeepsInv(State(), w, body, true);
      PublishKeepsInv(State(), w, body, false);
      var held := w.id in reports && reports[w.id].token == w.token
        && reports[w.id].status == Generating && !reports[w.id].deleted;
      if !held {
        return false;
      }
      told := store.Write(path, body, fault);
      if told {
        published := published[w.token := body];
      }
    }

    /** The worker finalises only what it was told is in place. */
    method FinalizeReport(w: Work, path: string, body: Body, windowOk: bool) returns (outcome: Outcome)
      requires Valid() && w in works && FileOf(tenant, w) == Some(path)
      requires w.token in published && published[w.token] == body
      modifies this
      ensures Valid()
      ensures (State(), outcome) == Model.FinalizeReport(old(State()), w, windowOk)
    {
      hide Inv, FileOf;
      FinalizeKeepsInv(State(), w, windowOk);
      var found := w.id in reports && reports[w.id].status == Generating
        && reports[w.id].token == w.token && reports[w.id].attempts == w.attempts;
      if !found || (w.trigger.Scheduled? && !windowOk) {
        return Refused;
      }
      reports := reports[w.id := reports[w.id].(status := Generated, path := path, artifact := Some(body))];
      interrupted := interrupted - {w.id};
      return Done;
    }

    method FinalizeFailure(w: Work) returns (outcome: Outcome)
      requires Valid() && w in works
      modifies this
      ensures Valid()
      ensures (State(), outcome) == Model.FinalizeFailure(old(State()), w)
    {
      hide Inv;
      FailKeepsInv(State(), w);
      if w.id !in reports || reports[w.id].status != Generating
        || reports[w.id].token != w.token || reports[w.id].attempts != w.attempts {
        return Refused;
      }
      reports := reports[w.id := reports[w.id].(status := Failed)];
      return Done;
    }

    /** One attempt: render, publish under the row lock, finalise; a failed one is recorded as such. */
    method Attempt(w: Work, render: Render, luck: Luck) returns (created: bool)
      requires Valid() && HoldsClaim(State(), w) && Rendered(State(), render)
      modifies this, store
      ensures Valid() && Rendered(State(), render)
      ensures works == old(works) && w.id in reports && w.id in old(reports)
      ensures forall id <- old(reports) :: id in reports && (id == w.id || reports[id] == old(reports)[id])
      ensures created ==> luck.renders && luck.finalizes && luck.write != BeforeLink
      ensures created ==> var r := reports[w.id];
        && r.status == Generated && r.artifact == Some(BodyOf(render, w))
        && FileOf(tenant, w) == Some(r.path) && InFiles(State(), r.path, BodyOf(render, w))
      ensures !created ==> reports[w.id] == old(reports[w.id]).(status := if luck.settles then Failed else Generating)
      ensures Healthy(luck) ==> created
    {
      hide Inv, FileOf, Rendered, BodyOf, RelativePath, HoldsClaim, Publish;
      StillHeld(State(), w);
      OnlyTheLatestClaimActs(State(), w);
      WorkPath(State(), w);
      var path := ReportRelativePath(tenant, w.id, w.due, w.trigger, w.stored, w.notices);
      created := false;
      if luck.renders {
        var body := BodyOf(render, w);
        HolderCanPublish(State(), render, w);
        RenderedStep(State(), DoPublish(w, body, true), render);
        RenderedStep(State(), DoPublish(w, body, false), render);
        var told := WithReportClaim(w, path.value, body, luck.write);
        if told && luck.finalizes {
          OnlyTheLatestClaimActs(State(), w);
          RenderedStep(State(), DoFinalize(w, true), render);
          var outcome := FinalizeReport(w, path.value, body, true);
          created := outcome == Done;
        }
      }
      if !created && luck.settles {
        OnlyTheLatestClaimActs(State(), w);
        RenderedStep(State(), DoFail(w), render);
        var outcome := FinalizeFailure(w);
      }
    }

    lemma HeldAttempts(db: Db, w: Work)
      requires Inv(db) && HoldsClaim(db, w)
      ensures w.attempts == db.reports[w.id].attempts && 1 <= w.attempts <= MAX_ATTEMPTS
    {
      WorkOf(db, w);
      RowOf(db, w.id);
    }

    lemma WorkPath(db: Db, w: Work)
      requires Inv(db) && w in db.works
      ensures FileOf(db.tenant, w).Some?
      ensures FileOf(db.tenant, w) == RelativePath(db.tenant, w.id, w.due, w.trigger, w.stored, Names(w.notices))
    {
      WorkFileOf(db, w);
    }

    /** A failed attempt below the last is granted again; a grant holds its claim and leaves the other rows alone. */
    lemma NextClaim(db: Db, id: string, now: Time)
      requires Inv(db) && id in db.reports
      ensures var (next, outcome) := Model.Reclaim(db, id, now); var r := db.reports[id];
        && (r.status == Failed && !r.deleted && r.attempts < MAX_ATTEMPTS ==> outcome.Granted?)
        && (!outcome.Granted? ==> next == db)
        && (outcome.Granted? ==>
              && HoldsClaim(next, outcome.work) && outcome.work.id == id
              && outcome.work.attempts == r.attempts + 1 <= MAX_ATTEMPTS && db.works <= next.works
              && id in next.reports && next.reports == db.reports[id := next.reports[id]])
    {
      hide Inv, Grouped;
    }

    lemma StillHeld(db: Db, w: Work)
      requires HoldsClaim(db, w)
      ensures w in db.works && w.id in db.reports && !db.reports[w.id].deleted
    {
    }

    /**
     The worker's loop, on its own: attempt after attempt until one succeeds or the third has failed.
     A healthy attempt always ends it, whatever files earlier attempts left behind.
     */
    method RunClaimed(claimed: Work, render: Render, luck: nat -> Luck) returns (created: bool, w: Work)
      requires Valid() && HoldsClaim(State(), claimed) && Rendered(State(), render)
      modifies this, store
      ensures Valid() && Rendered(State(), render)
      ensures claimed.id in reports && claimed.attempts <= w.attempts <= MAX_ATTEMPTS
      ensures forall id <- old(reports) :: id in reports && (id == claimed.id || reports[id] == old(reports)[id])
      ensures created ==> var r := reports[claimed.id];
        && r.status == Generated && r.artifact == Some(BodyOf(render, claimed))
        && FileOf(tenant, claimed) == Some(r.path) && InFiles(State(), r.path, BodyOf(render, claimed))
      ensures !created && luck(w.attempts).settles ==>
        reports[claimed.id].status == Failed && !Healthy(luck(w.attempts))
      ensures !created ==> forall k :: claimed.attempts <= k <= w.attempts ==> !Healthy(luck(k))
      ensures !created && (forall k :: luck(k).settles && !luck(k).stops) ==> w.attempts == MAX_ATTEMPTS
    {
      hide Inv, FileOf, Rendered, BodyOf, Model.Reclaim, HoldsClaim;
      w := claimed;
      HeldAttempts(State(), w);
      StillHeld(State(), w);
      while true
        invariant Valid() && HoldsClaim(State(), w) && Rendered(State(), render)
        invariant forall id <- old(reports) :: id in reports && (id == claimed.id || reports[id] == old(reports)[id])
        invariant w.id == claimed.id && claimed in works && claimed.attempts <= w.attempts <= MAX_ATTEMPTS
        invariant forall k :: claimed.attempts <= k < w.attempts ==> !Healthy(luck(k))
        decreases MAX_ATTEMPTS - w.attempts
      {
        HeldAttempts(State(), w);
        StillHeld(State(), w);
        created := Attempt(w, render, luck(w.attempts));
        if created {
          SameReportSameBody(State(), render, claimed, w);
          return;
        }
        if luck(w.attempts).stops || w.attempts == MAX_ATTEMPTS {
          return;
        }
        RenderedStep(State(), DoReclaim(w.id, luck(w.attempts).now), render);
        ghost var db := State();
        var next := Reclaim(w.id, luck(w.attempts).now);
        NextClaim(db, w.id, luck(w.attempts).now);
        if !next.Granted? {
          return;
        }
        w := next.work;
      }
    }

    // ---- deletion ----

    method DeleteReport(id: string, removal: Removal) returns (outcome: Outcome)
      requires Valid()
      modifies this, store
      ensures Valid()
      ensures (State(), outcome) == Model.Delete(old(State()), id, removal)
    {
      hide Inv, RelativePath;
      DeleteKeepsInv(State(), id, removal);
      if id !in reports || reports[id].status == Generating {
        return Refused;
      }
      if reports[id].deleted {
        return Skipped;
      }
      var r := reports[id];
      var path := r.path;
      if r.status == Failed && path == Join(["reports", tenant, id + ".html"]) {
        var notices := DistinctRuleNames(r.items);
        var rebuilt := ReportRelativePath(tenant, id, r.due, r.trigger, r.path, notices);
        if rebuilt.None? {
          return Refused;
        }
        path := rebuilt.value;
      }
      if !(tenant + "/" <= path) {
        return Refused;
      }
      if removal == CannotRemove {
        return Refused;
      }
      var removed := store.Remove(path, true);
      if removal == DiesAfterRemove {
        interrupted := interrupted + {id};
        return Refused;
      }
      reports := reports[id := r.(deleted := true, path := "", artifact := None, items := [])];
      return Done;
    }
  }
}
