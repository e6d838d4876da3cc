/** What holds of reports and their files over whole runs. */
module ReportTheorems {
  import opened Basics
  import opened ReportPaths
  import opened ReportModel
  import opened ReportInvariant

  lemma EmptyInv(tenant: string)
    requires SafeId(tenant)
    ensures Inv(Empty(tenant))
  {
  }

  lemma Reachable(tenant: string, run: seq<Action>)
    requires SafeId(tenant)
    ensures Inv(Run(Empty(tenant), run))
  {
    EmptyInv(tenant);
    RunKeepsInv(Empty(tenant), run);
  }

  // ---- what a step may do to a row ----

  /** Whether this step hands out a claim of the report. */
  ghost predicate GrantsAt(db: Db, a: Action, id: string) {
    Step(db, a).1.Granted? && Step(db, a).1.work.id == id
  }

  /** The token with which a worker settles its claim in this step. */
  function Settles(a: Action): Option<(string, nat)> {
    match a
    case DoFinalize(w, _) => Some((w.id, w.token))
    case DoFail(w) => Some((w.id, w.token))
    case _ => None
  }

  ghost predicate ClaimedAgain(db: Db, a: Action, id: string, r: Report, r': Report) {
    && GrantsAt(db, a, id) && !r.deleted && r.status != Generated
    && (r.status == Generating ==> r.attempts < MAX_ATTEMPTS)
    && r'.status == Generating && r'.token == db.nextToken && r'.attempts == (if a.DoRetry? then 1 else r.attempts + 1)
  }

  ghost predicate Settled(db: Db, a: Action, id: string, r: Report, r': Report) {
    && Settles(a) == Some((id, r.token)) && r.status == Generating && !r.deleted
    && r'.status != Generating && r'.attempts == r.attempts && r'.token == r.token
  }

  ghost predicate Removed(a: Action, id: string, r: Report, r': Report) {
    a == DoDelete(id, Removes) && r.status != Generating && !r.deleted && r' == Tombstone(r)
  }

  /** A row changes only by a claim, by its holder settling it, or by its deletion. */
  lemma RowStep(db: Db, a: Action, id: string)
    requires Inv(db) && id in db.reports
    ensures id in Step(db, a).0.reports
    ensures var r, r' := db.reports[id], Step(db, a).0.reports[id];
      || (r' == r && !GrantsAt(db, a, id))
      || ClaimedAgain(db, a, id, r, r')
      || (Settled(db, a, id, r, r') && !GrantsAt(db, a, id))
      || (Removed(a, id, r, r') && !GrantsAt(db, a, id))
  {
    hide Inv, RowInv, FileInv, Placeholder, FileOf, DeletePath, Grouped, SnapshotItems, SafeId, PrintedDue;
    RowOf(db, id);
    UndeletedWhileGenerating(db, id);
    if a.DoClaimScheduled? {
      hide Step;
      ScheduledRowStep(db, a, id);
    } else if a.DoReclaim? || a.DoRetry? || a.DoClaimManual? {
      ClaimRowStep(db, a, id);
    }
  }

  lemma UndeletedWhileGenerating(db: Db, id: string)
    requires Inv(db) && id in db.reports
    ensures db.reports[id].status == Generating ==> !db.reports[id].deleted
  {
    RowOf(db, id);
  }

  lemma ClaimRowStep(db: Db, a: Action, id: string)
    requires id in db.reports && (a.DoReclaim? || a.DoRetry? || a.DoClaimManual?)
    ensures id in Step(db, a).0.reports
    ensures var r, r' := db.reports[id], Step(db, a).0.reports[id];
      (r' == r && !GrantsAt(db, a, id)) || ClaimedAgain(db, a, id, r, r')
  {
    hide Placeholder, Grouped, SafeId, PrintedDue;
  }

  lemma ScheduledRowStep(db: Db, a: Action, id: string)
    requires Inv(db) && id in db.reports && a.DoClaimScheduled?
    ensures id in Step(db, a).0.reports
    ensures var r, r' := db.reports[id], Step(db, a).0.reports[id];
      (r' == r && !GrantsAt(db, a, id)) || ClaimedAgain(db, a, id, r, r')
  {
    hide Inv, Placeholder, Grouped, SnapshotItems, SafeId, PrintedDue;
    var found := ScheduledReport(db, a.schedule, a.due.at);
    if found == Some(id) && !db.reports[id].deleted {
      SnapshotUnchanged(db, id, a.names);
    }
  }

  /** A claim is only handed out together with its row's change. */
  lemma GrantShape(db: Db, a: Action, id: string)
    requires Inv(db) && GrantsAt(db, a, id)
    ensures var db' := Step(db, a).0; var w := Step(db, a).1.work;
      && id in db'.reports && w in db'.works && HoldsClaim(db', w)
      && w.attempts == db'.reports[id].attempts
      && db'.reports[id].attempts == (if id !in db.reports || a.DoRetry? then 1 else db.reports[id].attempts + 1)
      && w.token == db.nextToken && w.token !in db.published
  {
    hide Placeholder, Grouped, SnapshotItems, FileOf, SafeId, PrintedDue;
  }

  // ---- deletion ----

  /** No file is stored for the report, whatever its label. */
  ghost predicate Gone(db: Db, id: string, due: Due) {
    forall names: set<string> :: CurrentPath(db.tenant, id, due, names) !in db.files
  }

  lemma DeletedHasNoFile(db: Db, id: string)
    requires Inv(db) && id in db.reports && db.reports[id].deleted
    ensures Gone(db, id, db.reports[id].due)
  {
    hide CurrentPath, FileOf, RowFile;
    var due := db.reports[id].due;
    RowOf(db, id);
    forall names: set<string> | CurrentPath(db.tenant, id, due, names) in db.files
      ensures false
    {
      var path := CurrentPath(db.tenant, id, due, names);
      assert Written(db, path);
      var w :| w in db.works && FileOf(db.tenant, w) == Some(path);
      WorkFileOf(db, w);
      RowOf(db, w.id);
      PathNamesReport(db.tenant, id, due, names, w.id, db.reports[w.id].due, Names(w.notices));
      WorkOf(db, w);
    }
  }

  lemma {:induction false} DeletedStays(db: Db, run: seq<Action>, id: string)
    requires Inv(db) && id in db.reports && db.reports[id].deleted
    ensures id in Run(db, run).reports && Run(db, run).reports[id] == db.reports[id]
    decreases |run|
  {
    if run != [] {
      hide Inv;
      RowOf(db, id);
      RowStep(db, run[0], id);
      StepKeepsInv(db, run[0]);
      DeletedStays(Step(db, run[0]).0, run[1..], id);
    }
  }

  /**
   After a deletion commits, whatever stale workers, reclaims, retries, ticks or further deletions
   follow, the row stays deleted and no file of that report exists.
   */
  lemma DeletedFilesStayGone(db: Db, id: string, run: seq<Action>)
    requires Inv(db) && Delete(db, id, Removes).1 == Done
    ensures var deleted := Delete(db, id, Removes).0; var final := Run(deleted, run);
      && id in final.reports && final.reports[id] == Tombstone(db.reports[id])
      && Gone(final, id, db.reports[id].due)
      && forall w <- final.works ::
        w.id == id ==> FileOf(final.tenant, w).Some? && FileOf(final.tenant, w).value !in final.files
  {
    hide Inv, Gone, FileOf, DeletePath;
    var deleted := Delete(db, id, Removes).0;
    var final := Run(deleted, run);
    DeleteKeepsInv(db, id, Removes);
    DeletedStays(deleted, run, id);
    RunKeepsInv(deleted, run);
    DeletedHasNoFile(final, id);
    forall w | w in final.works && w.id == id
      ensures FileOf(final.tenant, w).Some? && FileOf(final.tenant, w).value !in final.files
    {
      WorkOf(final, w);
    }
  }

  /**
   Any kept report that is not being generated can be deleted, even after an earlier deletion died
   half-way: its one path is removed and no other file is.
   */
  lemma DeletionRemovesTheFile(db: Db, id: string)
    requires Inv(db) && id in db.reports && !db.reports[id].deleted && db.reports[id].status != Generating
    ensures var (db', outcome) := Delete(db, id, Removes);
      && outcome == Done
      && db'.files == db.files - {RowFile(db.tenant, id, db.reports[id])}
      && forall w <- db.works :: w.id == id ==> FileOf(db.tenant, w) == Some(RowFile(db.tenant, id, db.reports[id]))
  {
    hide Inv, FileOf, DeletePath, RowFile;
    DeletePathIsFile(db, id);
    forall w | w in db.works && w.id == id
      ensures FileOf(db.tenant, w) == Some(RowFile(db.tenant, id, db.reports[id]))
    {
      WorkFileOf(db, w);
    }
  }

  /** The path deletion removes, rebuilt or stored, is the path each attempt of the report writes. */
  lemma DeletePathIsEveryAttemptsPath(db: Db, w: Work)
    requires Inv(db) && w in db.works
    ensures w.id in db.reports
    ensures var r := db.reports[w.id];
      !r.deleted && r.status != Generating ==> DeletePath(db.tenant, w.id, r) == FileOf(db.tenant, w)
  {
    hide Inv, FileOf, DeletePath, RowFile;
    WorkFileOf(db, w);
    if !db.reports[w.id].deleted && db.reports[w.id].status != Generating {
      DeletePathIsFile(db, w.id);
    }
  }

  /** All attempts of one report, over a whole run, have the same notices and write the same path. */
  lemma SamePathEveryAttempt(tenant: string, run: seq<Action>, v: Work, w: Work)
    requires SafeId(tenant)
    requires v in Run(Empty(tenant), run).works && w in Run(Empty(tenant), run).works && v.id == w.id
    ensures v.notices == w.notices
    ensures FileOf(tenant, v).Some? && FileOf(tenant, v) == FileOf(tenant, w)
  {
    hide FileOf, Placeholder, CurrentPath, RowFile;
    var db := Run(Empty(tenant), run);
    Reachable(tenant, run);
    TenantStays(Empty(tenant), run);
    WorkFileOf(db, v);
    WorkFileOf(db, w);
  }

  lemma {:induction false} TenantStays(db: Db, run: seq<Action>)
    ensures Run(db, run).tenant == db.tenant
    decreases |run|
  {
    if run != [] {
      hide Step;
      FilesStep(db, run[0]);
      TenantStays(Step(db, run[0]).0, run[1..]);
    }
  }

  /** A schedule never has two reports for one window, in whatever states they are. */
  lemma OneReportPerWindow(tenant: string, run: seq<Action>, a: string, b: string)
    requires SafeId(tenant)
    requires var db := Run(Empty(tenant), run);
      a in db.reports && b in db.reports && db.reports[a].trigger.Scheduled?
      && db.reports[a].trigger == db.reports[b].trigger && db.reports[a].due.at == db.reports[b].due.at
    ensures a == b
  {
    Reachable(tenant, run);
    assert SameSchedule(Run(Empty(tenant), run).reports[a], Run(Empty(tenant), run).reports[b]);
  }

  /** A deleted scheduled report keeps its window: no later tick creates the report again. */
  lemma DeletedIsNotRecreated(db: Db, run: seq<Action>, id: string, newId: string, due: Due, now: Time,
                              names: map<Id, string>)
    requires Inv(db) && id in db.reports && db.reports[id].deleted
    requires db.reports[id].trigger.Scheduled? && due.at == db.reports[id].due.at
    ensures var final := Run(db, run);
      ClaimScheduled(final, newId, db.reports[id].trigger.schedule, due, now, names) == (final, Skipped)
  {
    hide SnapshotItems, Grant;
    DeletedStays(db, run, id);
    RunKeepsInv(db, run);
    var final := Run(db, run);
    var schedule := db.reports[id].trigger.schedule;
    assert IsScheduled(final, id, schedule, due.at);
    var found := ScheduledReport(final, schedule, due.at);
    assert SameSchedule(final.reports[id], final.reports[found.value]);
  }

  // ---- claims ----

  function Attempts(db: Db, id: string): nat {
    if id in db.reports then db.reports[id].attempts else 0
  }

  /** The claims handed out since the last operator retry, starting from a count of n. */
  ghost function ClaimsSinceRetry(db: Db, run: seq<Action>, id: string, n: nat): nat
    decreases |run|
  {
    if run == [] then n
    else
      var counted := if !GrantsAt(db, run[0], id) then n else if run[0].DoRetry? then 1 else n + 1;
      ClaimsSinceRetry(Step(db, run[0]).0, run[1..], id, counted)
  }

  /** A report's attempts are the claims granted since its last retry, and never more than three. */
  lemma {:induction false} AttemptsCountClaims(db: Db, run: seq<Action>, id: string)
    requires Inv(db)
    ensures Attempts(Run(db, run), id) == ClaimsSinceRetry(db, run, id, Attempts(db, id))
    ensures id in Run(db, run).reports ==> 1 <= Attempts(Run(db, run), id) <= MAX_ATTEMPTS
    decreases |run|
  {
    hide Inv, Step, GrantsAt;
    if run == [] {
      if id in db.reports {
        RowOf(db, id);
      }
    } else {
      StepKeepsInv(db, run[0]);
      AttemptsStep(db, run[0], id);
      AttemptsCountClaims(Step(db, run[0]).0, run[1..], id);
    }
  }

  lemma AttemptsStep(db: Db, a: Action, id: string)
    requires Inv(db)
    ensures Attempts(Step(db, a).0, id) ==
      if !GrantsAt(db, a, id) then Attempts(db, id) else if a.DoRetry? then 1 else Attempts(db, id) + 1
  {
    hide Inv, Step;
    if GrantsAt(db, a, id) {
      GrantShape(db, a, id);
    } else if id in db.reports {
      hide GrantsAt;
      RowStep(db, a, id);
    } else {
      NoRowWithoutGrant(db, a, id);
    }
  }

  lemma NoRowWithoutGrant(db: Db, a: Action, id: string)
    requires id !in db.reports && !GrantsAt(db, a, id)
    ensures id !in Step(db, a).0.reports
  {
    hide Placeholder, Grouped, SnapshotItems, FileOf, SafeId, PrintedDue, DeletePath;
  }

  /** A worker settles or publishes exactly when its claim is the report's latest and not yet settled. */
  lemma OnlyTheLatestClaimActs(db: Db, w: Work)
    requires Inv(db) && w in db.works
    ensures w.id in db.reports
    ensures var current := db.reports[w.id].token == w.token && db.reports[w.id].status == Generating;
      && (FinalizeFailure(db, w).1 == Done <==> current)
      && (FinalizeReport(db, w, true).1 == Done <==> current && w.token in db.published)
      && (HoldsClaim(db, w) <==> current)
  {
    hide FileOf, RowFile;
    WorkOf(db, w);
    RowOf(db, w.id);
    WorkFileOf(db, w);
  }

  /** Once a later claim has been granted, no action of the earlier worker has any effect, ever. */
  lemma {:induction false} StaleWorkIsFenced(db: Db, run: seq<Action>, w: Work, body: Body, flag: bool)
    requires Inv(db) && w in db.works && w.id in db.reports && db.reports[w.id].token != w.token
    ensures var final := Run(db, run);
      && Publish(final, w, body, flag) == (final, Refused)
      && FinalizeReport(final, w, flag) == (final, Refused)
      && FinalizeFailure(final, w) == (final, Refused)
    decreases |run|
  {
    WorkOf(db, w);
    if run == [] {
    } else {
      hide Inv, Publish, FinalizeReport, FinalizeFailure;
      RowStep(db, run[0], w.id);
      StepKeepsInv(db, run[0]);
      WorksStay(db, run[0]);
      RowOf(db, w.id);
      StaleWorkIsFenced(Step(db, run[0]).0, run[1..], w, body, flag);
    }
  }

  lemma WorksStay(db: Db, a: Action)
    ensures db.works <= Step(db, a).0.works
  {
    hide Placeholder, Grouped, SnapshotItems, FileOf, SafeId, PrintedDue, DeletePath;
  }

  /**
   A claim stands until another claim of the report is granted or its own holder settles it: nothing
   else that happens in between changes its row, and the holder can still settle it.
   */
  lemma {:induction false} ClaimStands(db: Db, run: seq<Action>, w: Work)
    requires Inv(db) && w in db.works && HoldsClaim(db, w)
    requires Undisturbed(db, run, w)
    ensures var final := Run(db, run);
      && w in final.works && w.id in final.reports && final.reports[w.id] == db.reports[w.id]
      && FinalizeFailure(final, w).1 == Done
    decreases |run|
  {
    if run == [] {
      OnlyTheLatestClaimActs(db, w);
    } else {
      hide Inv, FinalizeFailure;
      RowStep(db, run[0], w.id);
      StepKeepsInv(db, run[0]);
      WorksStay(db, run[0]);
      ClaimStands(Step(db, run[0]).0, run[1..], w);
    }
  }

  /** No step of the run claims w's report again or settles w. */
  ghost predicate Undisturbed(db: Db, run: seq<Action>, w: Work)
    decreases |run|
  {
    run == [] ||
    (!GrantsAt(db, run[0], w.id) && Settles(run[0]) != Some((w.id, w.token))
      && Undisturbed(Step(db, run[0]).0, run[1..], w))
  }

  /**
   A third attempt waits for its holder alone: if the holder never settles it, the report stays
   generating for ever, and in every later state it can be neither reclaimed, retried nor deleted.
   */
  lemma {:induction false} ThirdAttemptWaitsForItsHolder(db: Db, run: seq<Action>, id: string, now: Time,
                                                         removal: Removal)
    requires Inv(db) && id in db.reports && db.reports[id].status == Generating
      && db.reports[id].attempts == MAX_ATTEMPTS
    requires forall a <- run :: Settles(a) != Some((id, db.reports[id].token))
    ensures var final := Run(db, run);
      && id in final.reports && final.reports[id] == db.reports[id]
      && Reclaim(final, id, now) == (final, Skipped)
      && Retry(final, id, now) == (final, Skipped)
      && Delete(final, id, removal) == (final, Refused)
    decreases |run|
  {
    if run != [] {
      hide Inv, Reclaim, Retry, Delete;
      RowStep(db, run[0], id);
      StepKeepsInv(db, run[0]);
      ThirdAttemptWaitsForItsHolder(Step(db, run[0]).0, run[1..], id, now, removal);
    }
  }

  /** So an abandoned report can be taken over at some time exactly when it has an attempt left. */
  lemma AbandonedIsRecoverableExactly(db: Db, id: string)
    requires Inv(db) && id in db.reports && db.reports[id].status == Generating
    ensures (exists now: Time :: Reclaim(db, id, now).1.Granted?) <==> db.reports[id].attempts < MAX_ATTEMPTS
  {
    RowOf(db, id);
    if db.reports[id].attempts < MAX_ATTEMPTS {
      assert Reclaim(db, id, db.reports[id].claimedAt + LEASE + 1).1.Granted?;
    }
  }

  // ---- generated reports ----

  /** A generated report's row never changes again, except to be deleted. */
  lemma {:induction false} GeneratedIsFinal(db: Db, run: seq<Action>, id: string)
    requires Inv(db) && id in db.reports && db.reports[id].status == Generated && !db.reports[id].deleted
    ensures id in Run(db, run).reports
    ensures Run(db, run).reports[id] == db.reports[id] || Run(db, run).reports[id] == Tombstone(db.reports[id])
    decreases |run|
  {
    if run != [] {
      hide Inv;
      var next := Step(db, run[0]).0;
      RowStep(db, run[0], id);
      StepKeepsInv(db, run[0]);
      if next.reports[id].deleted {
        DeletedStays(next, run[1..], id);
      } else {
        GeneratedIsFinal(next, run[1..], id);
      }
    }
  }

  lemma {:induction false} InterruptedByDeletion(db: Db, run: seq<Action>, id: string)
    requires id in Run(db, run).interrupted
    ensures id in db.interrupted || DoDelete(id, DiesAfterRemove) in run
    decreases |run|
  {
    if run != [] {
      hide Grant, FileOf, DeletePath, ClaimScheduled;
      var next := Step(db, run[0]).0;
      InterruptedByDeletion(next, run[1..], id);
      if id in next.interrupted && id !in db.interrupted {
        OnlyDeletionInterrupts(db, run[0], id);
      }
    }
  }

  lemma OnlyDeletionInterrupts(db: Db, a: Action, id: string)
    requires id in Step(db, a).0.interrupted && id !in db.interrupted
    ensures a == DoDelete(id, DiesAfterRemove)
  {
    hide Placeholder, Grouped, SnapshotItems, FileOf, SafeId, PrintedDue, DeletePath;
  }

  /**
   In every reachable state, a generated report whose deletion was never interrupted has its file:
   at the path of its row, which is the path of all its attempts, with the recorded content.
   */
  lemma GeneratedHasItsFile(tenant: string, run: seq<Action>, id: string)
    requires SafeId(tenant)
    requires var db := Run(Empty(tenant), run);
      id in db.reports && db.reports[id].status == Generated && !db.reports[id].deleted
    requires DoDelete(id, DiesAfterRemove) !in run
    ensures var db := Run(Empty(tenant), run); var r := db.reports[id];
      && r.artifact.Some? && InFiles(db, r.path, r.artifact.value)
      && forall w <- db.works :: w.id == id ==> FileOf(tenant, w) == Some(r.path)
  {
    hide FileOf, RowFile;
    var db := Run(Empty(tenant), run);
    Reachable(tenant, run);
    TenantStays(Empty(tenant), run);
    RowOf(db, id);
    if id in db.interrupted {
      InterruptedByDeletion(Empty(tenant), run, id);
    }
    forall w | w in db.works && w.id == id
      ensures FileOf(tenant, w) == Some(db.reports[id].path)
    {
      WorkFileOf(db, w);
    }
  }

  // ---- retries and the write-once store ----

  /** What a worker renders depends on nothing but the report's identity and its snapshot. */
  type Render = (string, Trigger, Due, seq<ReportNotice>) -> Body

  function BodyOf(render: Render, w: Work): Body {
    render(w.id, w.trigger, w.due, w.notices)
  }

  ghost predicate Rendered(db: Db, render: Render) {
    forall w <- db.works :: RenderedAt(db, render, w)
  }

  ghost predicate RenderedAt(db: Db, render: Render, w: Work) {
    var path := FileOf(db.tenant, w);
    path.Some? && path.value in db.files ==> db.files[path.value] == BodyOf(render, w)
  }

  ghost predicate Renders(a: Action, render: Render) {
    a.DoPublish? ==> a.body == BodyOf(render, a.work)
  }

  lemma SameFileSameBody(db: Db, render: Render, v: Work, w: Work)
    requires Inv(db) && v in db.works && w in db.works && FileOf(db.tenant, v) == FileOf(db.tenant, w)
    ensures BodyOf(render, v) == BodyOf(render, w)
  {
    hide FileOf;
    if v.id != w.id {
      FilesApart(db, v, w);
    }
    WorkOf(db, v);
    WorkOf(db, w);
  }

  lemma RenderedStep(db: Db, a: Action, render: Render)
    requires Inv(db) && Rendered(db, render) && Renders(a, render)
    ensures Rendered(Step(db, a).0, render)
  {
    hide FileOf, Inv, BodyOf;
    var db' := Step(db, a).0;
    StepKeepsInv(db, a);
    WorksStay(db, a);
    FilesStep(db, a);
    forall w | w in db'.works
      ensures RenderedAt(db', render, w)
    {
      var path := FileOf(db.tenant, w);
      if path.Some? && path.value in db'.files {
        FileWriter(db', path.value);
        if path.value in db.files && db'.files[path.value] == db.files[path.value] {
          FileWriter(db, path.value);
          var v :| v in db.works && FileOf(db.tenant, v) == path;
          assert RenderedAt(db, render, v);
          SameFileSameBody(db', render, v, w);
        } else {
          SameFileSameBody(db', render, a.work, w);
        }
      }
    }
  }

  lemma FileWriter(db: Db, path: string)
    requires Inv(db) && path in db.files
    ensures Written(db, path)
  {
  }

  /** A file appears or changes only when a worker with a granted claim writes it. */
  lemma FilesStep(db: Db, a: Action)
    ensures Step(db, a).0.tenant == db.tenant
    ensures forall path <- Step(db, a).0.files ::
      || (path in db.files && Step(db, a).0.files[path] == db.files[path])
      || (a.DoPublish? && a.work in db.works
        && FileOf(db.tenant, a.work) == Some(path) && Step(db, a).0.files[path] == a.body)
  {
    hide Placeholder, Grouped, SnapshotItems, FileOf, SafeId, PrintedDue, DeletePath;
  }

  lemma {:induction false} RenderedRun(db: Db, run: seq<Action>, render: Render)
    requires Inv(db) && Rendered(db, render) && forall a <- run :: Renders(a, render)
    ensures Inv(Run(db, run)) && Rendered(Run(db, run), render)
    decreases |run|
  {
    if run != [] {
      hide Inv, Rendered;
      StepKeepsInv(db, run[0]);
      RenderedStep(db, run[0], render);
      RenderedRun(Step(db, run[0]).0, run[1..], render);
    }
  }

  /** The store refuses to overwrite a file with other content, but never the holder of a claim. */
  lemma HolderCanPublish(db: Db, render: Render, w: Work)
    requires Inv(db) && Rendered(db, render) && HoldsClaim(db, w)
    ensures Publish(db, w, BodyOf(render, w), true).1 == Done
  {
    hide FileOf, Inv, BodyOf;
    WorkFileOf(db, w);
    assert RenderedAt(db, render, w);
  }

  /**
   In every reachable state a retry can publish: each attempt renders what the earlier ones rendered,
   so the write-once store never refuses it.
   */
  lemma RetriesNeverConflict(tenant: string, run: seq<Action>, render: Render, w: Work)
    requires SafeId(tenant) && forall a <- run :: Renders(a, render)
    requires HoldsClaim(Run(Empty(tenant), run), w)
    ensures Publish(Run(Empty(tenant), run), w, BodyOf(render, w), true).1 == Done
  {
    hide FileOf, Inv, BodyOf, HoldsClaim, Publish;
    EmptyInv(tenant);
    RenderedRun(Empty(tenant), run, render);
    HolderCanPublish(Run(Empty(tenant), run), render, w);
  }

  lemma SameReportSameBody(db: Db, render: Render, v: Work, w: Work)
    requires Inv(db) && v in db.works && w in db.works && v.id == w.id
    ensures FileOf(db.tenant, v) == FileOf(db.tenant, w) && BodyOf(render, v) == BodyOf(render, w)
  {
    hide FileOf, CurrentPath, RowFile, BodyOf;
    WorkFileOf(db, v);
    WorkFileOf(db, w);
    SameFileSameBody(db, render, v, w);
  }
}
