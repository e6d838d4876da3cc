/** What every report transaction keeps. */
module ReportInvariant {
  import opened Basics
  import opened ReportPaths
  import opened ReportModel

  /** The path every attempt of this report writes, from the names in its snapshot. */
  function RowFile(tenant: string, id: string, r: Report): string {
    CurrentPath(tenant, id, r.due, ItemNames(r.items))
  }

  ghost predicate RowInv(db: Db, id: string, r: Report) {
    && SafeId(id) && PrintedDue(r.due)
    && 1 <= r.attempts <= MAX_ATTEMPTS
    && r.token < db.nextToken
    && (r.deleted ==> r.status != Generating)
    && (!r.deleted ==>
          r.path == if r.status == Generated then RowFile(db.tenant, id, r) else Placeholder(db.tenant, id))
    && (!r.deleted && r.trigger.Scheduled? ==> SnapshotTaken(db, r))
  }

  /** The items of a scheduled report already cover its window. */
  ghost predicate SnapshotTaken(db: Db, r: Report)
    requires r.trigger.Scheduled?
  {
    var key := (r.trigger.schedule, r.due.at);
    key in db.windows && forall x <- db.windows[key] :: HasMatch(r.items, x.0)
  }

  ghost predicate WorkInv(db: Db, w: Work) {
    && w.id in db.reports && w.token < db.nextToken
    && var r := db.reports[w.id];
    && w.due == r.due && w.trigger == r.trigger && w.stored == Placeholder(db.tenant, w.id)
    && w.token <= r.token
    && (w.token == r.token && r.status == Generating ==> w.attempts == r.attempts)
    && (!r.deleted ==> w.notices == Grouped(r.items))
    && (r.deleted ==> FileOf(db.tenant, w).Some? && FileOf(db.tenant, w).value !in db.files)
  }

  /** Works of one report carry the same notices. */
  ghost predicate WorksAgree(works: set<Work>) {
    forall v, w :: v in works && w in works && v.id == w.id ==> v.notices == w.notices
  }

  ghost predicate TokensUnique(works: set<Work>) {
    forall v, w :: v in works && w in works && v.token == w.token ==> v == w
  }

  /** No two reports carry the same token. */
  ghost predicate RowTokensUnique(reports: map<string, Report>) {
    forall a, b :: a in reports && b in reports && reports[a].token == reports[b].token ==> a == b
  }

  /** A schedule has one report for a due time. */
  ghost predicate ScheduledUnique(reports: map<string, Report>) {
    forall a, b :: a in reports && b in reports && SameSchedule(reports[a], reports[b]) ==> a == b
  }

  predicate SameSchedule(r: Report, s: Report) {
    r.trigger.Scheduled? && r.trigger == s.trigger && r.due.at == s.due.at
  }

  /** Every file was written by some work. */
  ghost predicate Written(db: Db, path: string) {
    exists w <- db.works :: FileOf(db.tenant, w) == Some(path)
  }

  /** A token's recorded file stands while its claim does, and for as long as the report is kept. */
  ghost predicate FileInv(db: Db, id: string, r: Report) {
    && (r.status == Generating && r.token in db.published ==>
          InFiles(db, RowFile(db.tenant, id, r), db.published[r.token]))
    && (r.status == Generated && !r.deleted && id !in db.interrupted ==>
          r.artifact.Some? && InFiles(db, RowFile(db.tenant, id, r), r.artifact.value))
  }

  predicate InFiles(db: Db, path: string, body: Body) {
    path in db.files && db.files[path] == body
  }

  ghost predicate RowsOk(db: Db) {
    forall id <- db.reports :: RowInv(db, id, db.reports[id])
  }

  ghost predicate WorksOk(db: Db) {
    forall w <- db.works :: WorkInv(db, w)
  }

  ghost predicate FilesOk(db: Db) {
    forall id <- db.reports :: FileInv(db, id, db.reports[id])
  }

  ghost predicate PublishedOk(db: Db) {
    && (forall t <- db.published :: t < db.nextToken)
    && (forall path <- db.files :: Written(db, path))
  }

  ghost predicate Inv(db: Db) {
    && SafeId(db.tenant)
    && RowsOk(db) && WorksOk(db) && FilesOk(db) && PublishedOk(db)
    && WorksAgree(db.works) && TokensUnique(db.works) && RowTokensUnique(db.reports) && ScheduledUnique(db.reports)
  }

  // ---- paths of works ----

  /** A work writes the current-format path of its own names. */
  lemma WorkFile(tenant: string, w: Work)
    requires SafeId(tenant) && SafeId(w.id) && PrintedDue(w.due) && w.stored == Placeholder(tenant, w.id)
    ensures FileOf(tenant, w) == Some(CurrentPath(tenant, w.id, w.due, Names(w.notices)))
  {
    PlaceholderIsNotLegacy(tenant, w.id, w.due, w.trigger);
  }

  lemma WorkFileOf(db: Db, w: Work)
    requires Inv(db) && w in db.works
    ensures w.id in db.reports
    ensures FileOf(db.tenant, w) == Some(CurrentPath(db.tenant, w.id, db.reports[w.id].due, Names(w.notices)))
    ensures !db.reports[w.id].deleted ==> FileOf(db.tenant, w) == Some(RowFile(db.tenant, w.id, db.reports[w.id]))
  {
    assert WorkInv(db, w);
    assert RowInv(db, w.id, db.reports[w.id]);
    WorkFile(db.tenant, w);
    GroupsKeepNames(Grouped(db.reports[w.id].items), db.reports[w.id].items);
  }

  /** Files of different reports are different. */
  lemma FilesApart(db: Db, v: Work, w: Work)
    requires Inv(db) && v in db.works && w in db.works && v.id != w.id
    ensures FileOf(db.tenant, v) != FileOf(db.tenant, w)
  {
    WorkFileOf(db, v);
    WorkFileOf(db, w);
    assert RowInv(db, v.id, db.reports[v.id]) && RowInv(db, w.id, db.reports[w.id]);
    var r, s := db.reports[v.id], db.reports[w.id];
    if CurrentPath(db.tenant, v.id, r.due, Names(v.notices)) == CurrentPath(db.tenant, w.id, s.due, Names(w.notices)) {
      PathNamesReport(db.tenant, v.id, r.due, Names(v.notices), w.id, s.due, Names(w.notices));
    }
  }

  lemma RowFilesApart(db: Db, id: string, other: string)
    requires Inv(db) && id in db.reports && other in db.reports && id != other
    ensures RowFile(db.tenant, id, db.reports[id]) != RowFile(db.tenant, other, db.reports[other])
  {
    assert RowInv(db, id, db.reports[id]) && RowInv(db, other, db.reports[other]);
    var r, s := db.reports[id], db.reports[other];
    if RowFile(db.tenant, id, r) == RowFile(db.tenant, other, s) {
      PathNamesReport(db.tenant, id, r.due, ItemNames(r.items), other, s.due, ItemNames(s.items));
    }
  }

  // ---- snapshots ----

  lemma {:induction false} SnapshotCovers(items: seq<Item>, window: WindowItems, names: map<Id, string>)
    ensures var r := SnapshotItems(items, window, names);
      && (forall x <- window :: HasMatch(r, x.0))
      && (forall m: Id :: HasMatch(items, m) ==> HasMatch(r, m))
    decreases |window|
  {
    if window != [] {
      var (m, n) := window[0];
      var name := if m in names then names[m] else "";
      var next := if HasMatch(items, m) then items else items + [Item(m, n, name)];
      if !HasMatch(items, m) {
        assert Item(m, n, name) in next;
      }
      forall k: Id | HasMatch(items, k) ensures HasMatch(next, k) {
        var it :| it in items && it.matchId == k;
        assert it in next;
      }
      SnapshotCovers(next, window[1..], names);
      assert window == [window[0]] + window[1..];
    }
  }

  /** A repeated snapshot inserts nothing, whatever the rules are called by then. */
  lemma {:induction false} SnapshotIsStable(items: seq<Item>, window: WindowItems, names: map<Id, string>)
    requires forall x <- window :: HasMatch(items, x.0)
    ensures SnapshotItems(items, window, names) == items
    decreases |window|
  {
    if window != [] {
      assert window[0] in window;
      SnapshotIsStable(items, window[1..], names);
    }
  }

  // ---- granting ----

  /** A claim that may be granted: of a new report, or of a kept one under its own snapshot. */
  ghost predicate Grantable(db: Db, id: string, r: Report) {
    && r.status == Generating && !r.deleted && r.token == db.nextToken
    && RowInv(db.(nextToken := db.nextToken + 1), id, r)
    && (id in db.reports ==>
          !db.reports[id].deleted && db.reports[id].due == r.due && db.reports[id].trigger == r.trigger
          && db.reports[id].items == r.items)
    && (id !in db.reports ==> forall o <- db.reports :: !SameSchedule(r, db.reports[o]))
  }

  lemma GrantKeepsRows(db: Db, id: string, r: Report)
    requires Inv(db) && Grantable(db, id, r)
    ensures var db' := Grant(db, id, r).0; RowsOk(db') && FilesOk(db') && PublishedOk(db')
    ensures var db' := Grant(db, id, r).0; RowTokensUnique(db'.reports) && ScheduledUnique(db'.reports)
  {
    hide CurrentPath, Names, ItemNames, RelativePath, FileOf, Grouped, Placeholder, SafeId, PrintedDue, SnapshotItems;
    var db' := Grant(db, id, r).0;
    MoreWorksWritten(db, db');
    forall o | o in db'.reports
      ensures RowInv(db', o, db'.reports[o]) && FileInv(db', o, db'.reports[o])
      ensures o != id ==> db'.reports[o].token != r.token
      ensures o != id ==> !SameSchedule(db'.reports[o], r) && !SameSchedule(r, db'.reports[o])
    {
      if o != id {
        RowOf(db, o);
      }
    }
  }

  lemma GrantKeepsWorks(db: Db, id: string, r: Report)
    requires Inv(db) && Grantable(db, id, r)
    ensures var db' := Grant(db, id, r).0; WorksOk(db') && WorksAgree(db'.works) && TokensUnique(db'.works)
  {
    hide CurrentPath, Names, ItemNames, RelativePath, FileOf, Grouped, Placeholder, SafeId, PrintedDue, SnapshotItems;
    var db' := Grant(db, id, r).0;
    var w := Grant(db, id, r).1.work;
    forall v | v in db'.works
      ensures WorkInv(db', v)
      ensures v.id == id ==> v.notices == w.notices
      ensures v.token == w.token ==> v == w
    {
      if v != w {
        WorkOf(db, v);
      }
    }
  }

  lemma GrantKeepsInv(db: Db, id: string, r: Report)
    requires Inv(db) && Grantable(db, id, r)
    ensures Inv(Grant(db, id, r).0)
  {
    GrantKeepsRows(db, id, r);
    GrantKeepsWorks(db, id, r);
  }

  /** A first claim. */
  lemma InsertKeepsInv(db: Db, id: string, trigger: Trigger, due: Due, now: Time, items: seq<Item>)
    requires Inv(db) && NewId(db, id, due)
    requires trigger.Scheduled? ==> SnapshotTaken(db, Fresh(db, id, trigger, due, now, items))
    requires trigger.Scheduled? ==> forall o <- db.reports :: !IsScheduled(db, o, trigger.schedule, due.at)
    ensures Inv(Grant(db, id, Fresh(db, id, trigger, due, now, items)).0)
  {
    hide Inv, Grant, Placeholder, SafeId, PrintedDue;
    GrantKeepsInv(db, id, Fresh(db, id, trigger, due, now, items));
  }

  /** A further claim of an existing report that does not change its snapshot. */
  lemma AgainKeepsInv(db: Db, id: string, attempts: nat, now: Time)
    requires Inv(db) && id in db.reports && 1 <= attempts <= MAX_ATTEMPTS
    requires !db.reports[id].deleted && db.reports[id].status != Generated
    ensures Inv(Grant(db, id, Again(db, db.reports[id], attempts, now, db.reports[id].items)).0)
  {
    hide Inv, Grant, Placeholder, SafeId, PrintedDue;
    RowOf(db, id);
    GrantKeepsInv(db, id, Again(db, db.reports[id], attempts, now, db.reports[id].items));
  }

  lemma ScheduledKeepsInv(db: Db, a: Action)
    requires Inv(db) && a.DoClaimScheduled?
    ensures Inv(Step(db, a).0)
  {
    hide Inv, Grant, RowInv, SnapshotItems, Placeholder;
    var key := (a.schedule, a.due.at);
    if key in db.windows && db.windows[key] != [] {
      var found := ScheduledReport(db, a.schedule, a.due.at);
      if found.None? {
        var items := SnapshotItems([], db.windows[key], a.names);
        SnapshotCovers([], db.windows[key], a.names);
        if NewId(db, a.id, a.due) {
          InsertKeepsInv(db, a.id, Scheduled(a.schedule), a.due, a.now, items);
        }
      } else {
        var r := db.reports[found.value];
        if Reclaimable(r, a.now) {
          SnapshotUnchanged(db, found.value, a.names);
          AgainKeepsInv(db, found.value, r.attempts + 1, a.now);
        }
      }
    }
  }

  /** Claiming a scheduled report again finds its items as they were. */
  lemma SnapshotUnchanged(db: Db, id: string, names: map<Id, string>)
    requires Inv(db) && id in db.reports && !db.reports[id].deleted && db.reports[id].trigger.Scheduled?
    ensures var r := db.reports[id]; var key := (r.trigger.schedule, r.due.at);
      && 1 <= r.attempts
      && key in db.windows && SnapshotItems(r.items, db.windows[key], names) == r.items
  {
    hide Placeholder, RowFile;
    RowOf(db, id);
    SnapshotIsStable(db.reports[id].items, db.windows[(db.reports[id].trigger.schedule, db.reports[id].due.at)], names);
  }

  // ---- working ----

  /** Growing the set of works keeps every file accounted for. */
  lemma MoreWorksWritten(db: Db, db': Db)
    requires PublishedOk(db) && db.tenant == db'.tenant && db.works <= db'.works
    requires db'.files.Keys <= db.files.Keys && db'.published == db.published && db.nextToken <= db'.nextToken
    ensures PublishedOk(db')
  {
    hide CurrentPath, Names, ItemNames, RelativePath, FileOf, Grouped, Placeholder, SafeId, PrintedDue, SnapshotItems;
    forall path | path in db'.files ensures Written(db', path) {
      var w :| w in db.works && FileOf(db.tenant, w) == Some(path);
      assert w in db'.works;
    }
  }

  /** Writing a held claim's file leaves every other report's files alone. */
  lemma PublishKeepsWorks(db: Db, w: Work, body: Body, reported: bool)
    requires Inv(db)
    ensures var db' := Publish(db, w, body, reported).0; WorksOk(db') && PublishedOk(db')
  {
    hide CurrentPath, Names, ItemNames, RelativePath, FileOf, Grouped, Placeholder, SafeId, PrintedDue, RowFile;
    var db' := Publish(db, w, body, reported).0;
    if db' != db {
      forall v | v in db'.works
        ensures WorkInv(db', v)
      {
        WorkOf(db, v);
        if v.id != w.id {
          FilesApart(db, v, w);
        }
      }
      WorkOf(db, w);
      forall path | path in db'.files
        ensures Written(db', path)
      {
        assert path in db.files ==> Written(db, path);
      }
    }
  }

  lemma TokensApart(db: Db, w: Work, id: string)
    requires Inv(db) && HoldsClaim(db, w) && id in db.reports && id != w.id
    ensures db.reports[id].token != w.token
  {
  }

  lemma Parts(db: Db)
    requires Inv(db)
    ensures RowsOk(db) && FilesOk(db)
  {
  }

  lemma HeldRow(db: Db, w: Work)
    requires HoldsClaim(db, w)
    ensures w in db.works && w.id in db.reports && !db.reports[w.id].deleted && db.reports[w.id].token == w.token
    ensures db.reports[w.id].status == Generating
  {
  }

  lemma PublishKeepsRows(db: Db, w: Work, body: Body, reported: bool)
    requires Inv(db)
    ensures var db' := Publish(db, w, body, reported).0; RowsOk(db') && FilesOk(db')
  {
    hide Inv, HoldsClaim, CurrentPath, Names, ItemNames, RelativePath, FileOf, Grouped, Placeholder, SafeId;
    hide PrintedDue, RowFile;
    var db' := Publish(db, w, body, reported).0;
    if db' == db {
      Parts(db);
    } else {
      HeldRow(db, w);
      WorkFileOf(db, w);
      forall id | id in db'.reports
        ensures RowInv(db', id, db'.reports[id]) && FileInv(db', id, db'.reports[id])
      {
        RowOf(db, id);
        if id != w.id {
          TokensApart(db, w, id);
          RowFilesApart(db, id, w.id);
        }
      }
    }
  }

  lemma PublishKeepsInv(db: Db, w: Work, body: Body, reported: bool)
    requires Inv(db)
    ensures Inv(Publish(db, w, body, reported).0)
  {
    hide WorksOk, RowsOk, FilesOk, PublishedOk, HoldsClaim, Writable, FileOf;
    PublishKeepsWorks(db, w, body, reported);
    PublishKeepsRows(db, w, body, reported);
  }

  lemma FinalizeKeepsInv(db: Db, w: Work, windowOk: bool)
    requires Inv(db)
    ensures Inv(FinalizeReport(db, w, windowOk).0)
  {
    hide CurrentPath, Names, ItemNames, RelativePath, FileOf, Grouped, Placeholder, SafeId, PrintedDue, SnapshotItems;
    var (db', outcome) := FinalizeReport(db, w, windowOk);
    if outcome == Done {
      WorkFileOf(db, w);
      assert RowInv(db, w.id, db.reports[w.id]);
      RowsSettle(db, db', w.id);
      assert FileInv(db, w.id, db.reports[w.id]);
    }
  }

  lemma FailKeepsInv(db: Db, w: Work)
    requires Inv(db)
    ensures Inv(FinalizeFailure(db, w).0)
  {
    hide CurrentPath, Names, ItemNames, RelativePath, FileOf, Grouped, Placeholder, SafeId, PrintedDue, SnapshotItems;
    var (db', outcome) := FinalizeFailure(db, w);
    if outcome == Done {
      assert RowInv(db, w.id, db.reports[w.id]);
      RowsSettle(db, db', w.id);
    }
  }

  /** Settling a generating row touches nothing that the works and the other rows rely on. */
  lemma RowsSettle(db: Db, db': Db, id: string)
    requires Inv(db) && id in db.reports && db.reports[id].status == Generating
    requires id in db'.reports && db'.reports[id].status != Generating
    requires var r, r' := db.reports[id], db'.reports[id];
      r' == r.(status := r'.status, path := r'.path, artifact := r'.artifact)
    requires db' == db.(reports := db.reports[id := db'.reports[id]], interrupted := db'.interrupted)
    requires db.interrupted - {id} <= db'.interrupted
    ensures WorksOk(db') && PublishedOk(db') && RowTokensUnique(db'.reports) && ScheduledUnique(db'.reports)
    ensures forall o <- db'.reports :: o != id ==> RowInv(db', o, db'.reports[o]) && FileInv(db', o, db'.reports[o])
  {
    hide CurrentPath, Names, ItemNames, RelativePath, FileOf, Grouped, Placeholder, SafeId, PrintedDue, SnapshotItems;
    assert RowInv(db, id, db.reports[id]);
    MoreWorksWritten(db, db');
    forall v | v in db'.works
      ensures WorkInv(db', v)
    {
      assert WorkInv(db, v);
    }
    forall o | o in db'.reports && o != id
      ensures RowInv(db', o, db'.reports[o]) && FileInv(db', o, db'.reports[o])
    {
      assert RowInv(db, o, db.reports[o]) && FileInv(db, o, db.reports[o]);
    }
  }

  /** The path that deletion removes is the row's file, even when it has to be rebuilt. */
  lemma DeletePathIsFile(db: Db, id: string)
    requires Inv(db) && id in db.reports && !db.reports[id].deleted && db.reports[id].status != Generating
    ensures DeletePath(db.tenant, id, db.reports[id]) == Some(RowFile(db.tenant, id, db.reports[id]))
    ensures db.tenant + "/" <= RowFile(db.tenant, id, db.reports[id])
  {
    var r := db.reports[id];
    assert RowInv(db, id, r);
    PlaceholderIsNotLegacy(db.tenant, id, r.due, r.trigger);
    CurrentPathUnderTenant(db.tenant, id, r.due, ItemNames(r.items));
  }

  /** Removing a report's file takes it from every work of the report, and from no other report. */
  lemma DeleteKeepsWorks(db: Db, id: string, removal: Removal)
    requires Inv(db)
    ensures var db' := Delete(db, id, removal).0; WorksOk(db') && PublishedOk(db')
  {
    hide CurrentPath, Names, ItemNames, RelativePath, FileOf, Grouped, Placeholder, SafeId, PrintedDue, RowFile;
    hide DeletePath;
    var db' := Delete(db, id, removal).0;
    if db' != db {
      DeletePathIsFile(db, id);
      MoreWorksWritten(db, db');
      forall v | v in db'.works
        ensures WorkInv(db', v)
      {
        WorkOf(db, v);
        WorkFileOf(db, v);
      }
    }
  }

  lemma DeleteKeepsRow(db: Db, id: string, removal: Removal, o: string)
    requires Inv(db) && Delete(db, id, removal).0 != db && o in db.reports
    ensures var db' := Delete(db, id, removal).0;
      o in db'.reports && RowInv(db', o, db'.reports[o]) && FileInv(db', o, db'.reports[o])
  {
    hide Inv, CurrentPath, Names, ItemNames, RelativePath, FileOf, Grouped, Placeholder, SafeId, PrintedDue, RowFile;
    hide DeletePath;
    DeletePathIsFile(db, id);
    RowOf(db, o);
    if o != id {
      RowFilesApart(db, id, o);
    }
  }

  lemma DeleteKeepsRows(db: Db, id: string, removal: Removal)
    requires Inv(db)
    ensures var db' := Delete(db, id, removal).0; RowsOk(db') && FilesOk(db')
  {
    hide CurrentPath, Names, ItemNames, RelativePath, FileOf, Grouped, Placeholder, SafeId, PrintedDue, RowFile;
    hide DeletePath;
    var db' := Delete(db, id, removal).0;
    if db' != db {
      forall o | o in db'.reports
        ensures RowInv(db', o, db'.reports[o]) && FileInv(db', o, db'.reports[o])
      {
        DeleteKeepsRow(db, id, removal, o);
      }
    }
  }

  lemma DeleteKeepsInv(db: Db, id: string, removal: Removal)
    requires Inv(db)
    ensures Inv(Delete(db, id, removal).0)
  {
    hide WorksOk, RowsOk, FilesOk, PublishedOk, DeletePath;
    DeleteKeepsWorks(db, id, removal);
    DeleteKeepsRows(db, id, removal);
  }

  lemma MoreWindowsKeepInv(db: Db, windows: map<(Id, Time), WindowItems>)
    requires Inv(db) && forall key <- db.windows :: key in windows && windows[key] == db.windows[key]
    ensures Inv(db.(windows := windows))
  {
    hide CurrentPath, Names, ItemNames, RelativePath, FileOf, Grouped, Placeholder, SafeId, PrintedDue, SnapshotItems;
    hide WorksAgree, TokensUnique, RowTokensUnique, ScheduledUnique, PublishedOk;
    var db' := db.(windows := windows);
    MoreWorksWritten(db, db');
    forall o | o in db'.reports
      ensures RowInv(db', o, db'.reports[o]) && FileInv(db', o, db'.reports[o])
    {
      assert RowInv(db, o, db.reports[o]) && FileInv(db, o, db.reports[o]);
    }
    forall v | v in db'.works
      ensures WorkInv(db', v)
    {
      assert WorkInv(db, v);
    }
  }

  lemma FixWindowKeepsInv(db: Db, a: Action)
    requires Inv(db) && a.FixWindow?
    ensures Inv(Step(db, a).0)
  {
    hide Inv;
    if (a.schedule, a.at) !in db.windows {
      MoreWindowsKeepInv(db, db.windows[(a.schedule, a.at) := a.window]);
    }
  }

  lemma StepKeepsInv(db: Db, a: Action)
    requires Inv(db)
    ensures Inv(Step(db, a).0)
  {
    hide Inv;
    match a
    case FixWindow(_, _, _) => FixWindowKeepsInv(db, a);
    case DoClaimScheduled(_, _, _, _, _) => ScheduledKeepsInv(db, a);
    case DoClaimManual(id, due, now, items) =>
      if items != [] && NewId(db, id, due) {
        InsertKeepsInv(db, id, Manual, due, now, items);
      }
    case DoReclaim(id, now) =>
      if id in db.reports && Reclaimable(db.reports[id], now) {
        RowOf(db, id);
        AgainKeepsInv(db, id, db.reports[id].attempts + 1, now);
      }
    case DoRetry(id, now) =>
      if id in db.reports && !db.reports[id].deleted && db.reports[id].status == Failed {
        AgainKeepsInv(db, id, 1, now);
      }
    case DoPublish(work, body, reported) => PublishKeepsInv(db, work, body, reported);
    case DoFinalize(work, windowOk) => FinalizeKeepsInv(db, work, windowOk);
    case DoFail(work) => FailKeepsInv(db, work);
    case DoDelete(id, removal) => DeleteKeepsInv(db, id, removal);
  }

  lemma RowOf(db: Db, id: string)
    requires Inv(db) && id in db.reports
    ensures RowInv(db, id, db.reports[id]) && FileInv(db, id, db.reports[id])
  {
  }

  lemma WorkOf(db: Db, w: Work)
    requires Inv(db) && w in db.works
    ensures WorkInv(db, w)
  {
  }

  lemma {:induction false} RunKeepsInv(db: Db, run: seq<Action>)
    requires Inv(db)
    ensures Inv(Run(db, run))
    decreases |run|
  {
    if run != [] {
      StepKeepsInv(db, run[0]);
      RunKeepsInv(Step(db, run[0]).0, run[1..]);
    }
  }
}
