/** When a report claim is granted, refused or taken over, and what each operation leaves behind. */
module ReportClaims {
  import opened Basics
  import opened ReportPaths
  import opened ReportModel
  import opened ReportInvariant
  import opened ReportTheorems

  /** The row after a claim: generating under a new token from the presented time, with its snapshot as it was. */
  ghost predicate ClaimedRow(db: Db, r: Report, r': Report, attempts: nat, now: Time) {
    && r'.status == Generating && r'.attempts == attempts && r'.token == db.nextToken && r'.claimedAt == now
    && r'.(status := r.status, attempts := r.attempts, token := r.token, claimedAt := r.claimedAt) == r
  }

  /** A grant writes one row and hands out what that row holds; nothing else changes. */
  ghost predicate GrantOnly(db: Db, next: Db, id: string, outcome: Outcome) {
    && id in next.reports && outcome.Granted?
    && next.reports == db.reports[id := next.reports[id]]
    && next.tenant == db.tenant && next.windows == db.windows && next.files == db.files
    && next.published == db.published && next.interrupted == db.interrupted
    && next.nextToken == db.nextToken + 1 && next.works == db.works + {outcome.work}
    && var r := next.reports[id];
    && outcome.work == Work(id, r.trigger, r.due, r.path, r.token, r.attempts, Grouped(r.items))
  }

  /** A kept report below three attempts that failed, or whose claim is older than the lease. */
  ghost predicate Open(r: Report, now: Time) {
    && !r.deleted && r.attempts < 3
    && (r.status == Failed || (r.status == Generating && r.claimedAt + LEASE < now))
  }

  /**
   A reclaim is granted exactly for a kept report below three attempts that failed, or that has been
   generating for longer than the lease at the presented time. A refused one changes nothing.
   */
  lemma ReclaimGrantedExactly(db: Db, id: string, now: Time)
    ensures var (next, outcome) := Reclaim(db, id, now);
      && (outcome.Granted? <==> id in db.reports && Open(db.reports[id], now))
      && (!outcome.Granted? ==> next == db)
      && (outcome.Granted? ==>
            && GrantOnly(db, next, id, outcome)
            && ClaimedRow(db, db.reports[id], next.reports[id], db.reports[id].attempts + 1, now))
  {
    hide Grouped;
  }

  /** The same of the operator's retry: exactly a kept report that failed, which starts over at attempt one. */
  lemma RetryGrantedExactly(db: Db, id: string, now: Time)
    ensures var (next, outcome) := Retry(db, id, now);
      && (outcome.Granted? <==> id in db.reports && !db.reports[id].deleted && db.reports[id].status == Failed)
      && (!outcome.Granted? ==> next == db)
      && (outcome.Granted? ==>
            GrantOnly(db, next, id, outcome) && ClaimedRow(db, db.reports[id], next.reports[id], 1, now))
  {
    hide Grouped;
  }

  /**
   A tick claims a window's existing report under exactly the condition of a reclaim, and leaves its
   snapshot alone.
   */
  lemma TickReclaimsExactly(db: Db, id: string, newId: string, schedule: Id, due: Due, now: Time,
                            names: map<Id, string>)
    requires Inv(db) && IsScheduled(db, id, schedule, due.at)
    ensures var (next, outcome) := ClaimScheduled(db, newId, schedule, due, now, names);
      && (outcome.Granted? <==>
            Open(db.reports[id], now) && (schedule, due.at) in db.windows && db.windows[(schedule, due.at)] != [])
      && (!outcome.Granted? ==> next == db)
      && (outcome.Granted? ==>
            && GrantOnly(db, next, id, outcome)
            && ClaimedRow(db, db.reports[id], next.reports[id], db.reports[id].attempts + 1, now))
  {
    hide Grouped, Inv, SnapshotItems;
    TheScheduledReport(db, id, schedule, due.at);
    if !db.reports[id].deleted {
      SnapshotUnchanged(db, id, names);
    }
  }

  lemma TheScheduledReport(db: Db, id: string, schedule: Id, at: Time)
    requires Inv(db) && IsScheduled(db, id, schedule, at)
    ensures ScheduledReport(db, schedule, at) == Some(id)
  {
    hide RowsOk, WorksOk, FilesOk, PublishedOk, WorksAgree, TokensUnique;
    var found := ScheduledReport(db, schedule, at);
    assert SameSchedule(db.reports[found.value], db.reports[id]);
  }

  /** A tick creates the report of a window that has items and none yet, at its first attempt, with its snapshot. */
  lemma TickCreatesExactly(db: Db, newId: string, schedule: Id, due: Due, now: Time, names: map<Id, string>)
    requires forall id :: !IsScheduled(db, id, schedule, due.at)
    ensures var (next, outcome) := ClaimScheduled(db, newId, schedule, due, now, names);
      var key := (schedule, due.at);
      && (outcome.Granted? <==> key in db.windows && db.windows[key] != [] && NewId(db, newId, due))
      && (!outcome.Granted? ==> next == db)
      && (outcome.Granted? ==>
            && GrantOnly(db, next, newId, outcome)
            && var r := next.reports[newId];
            && r.trigger == Scheduled(schedule) && r.due == due && r.status == Generating && r.attempts == 1
            && r.token == db.nextToken && r.claimedAt == now && !r.deleted && r.artifact == None
            && r.path == "reports/" + db.tenant + "/" + newId + ".html"
            && Snapshotted([], db.windows[key], names, r.items))
  {
    hide Grouped, SnapshotItems;
    PlaceholderParts(db.tenant, newId);
    var key := (schedule, due.at);
    if key in db.windows {
      SnapshotMeans([], db.windows[key], names);
    }
  }

  lemma PlaceholderParts(tenant: string, id: string)
    ensures Placeholder(tenant, id) == "reports/" + tenant + "/" + id + ".html"
  {
    assert Join([tenant, id + ".html"]) == tenant + "/" + Join([id + ".html"]);
  }

  /** A manual claim creates its report exactly when there are items, under a new safe id, with those items. */
  lemma ManualGrantedExactly(db: Db, id: string, due: Due, now: Time, items: seq<Item>)
    ensures var (next, outcome) := ClaimManual(db, id, due, now, items);
      && (outcome.Granted? <==> items != [] && NewId(db, id, due))
      && (!outcome.Granted? ==> next == db)
      && (outcome.Granted? ==>
            && GrantOnly(db, next, id, outcome)
            && next.reports[id] ==
                 Report(Manual, due, Generating, "reports/" + db.tenant + "/" + id + ".html", 1, db.nextToken, now,
                        false, items, None))
  {
    hide Grouped, SafeId, PrintedDue;
    PlaceholderParts(db.tenant, id);
  }

  /**
   A deletion succeeds exactly for a kept report that is not generating and whose file can be removed. The
   row stays, with its window and history but without path, content and items; only its file is gone.
   */
  lemma DeletedExactly(db: Db, id: string, removal: Removal)
    requires Inv(db)
    ensures var (next, outcome) := Delete(db, id, removal);
      var kept := id in db.reports && !db.reports[id].deleted && db.reports[id].status != Generating;
      && (outcome == Done <==> kept && removal == Removes)
      && (outcome == Skipped <==> id in db.reports && db.reports[id].deleted && db.reports[id].status != Generating)
      && (!kept || removal == CannotRemove ==> next == db)
      && (kept && removal != CannotRemove ==>
            && next.files == db.files - {RowFile(db.tenant, id, db.reports[id])}
            && next.(reports := db.reports, files := db.files, interrupted := db.interrupted) == db
            && next.interrupted == db.interrupted + (if removal == DiesAfterRemove then {id} else {})
            && id in next.reports && next.reports == db.reports[id := next.reports[id]])
      && (kept && removal == Removes ==>
            && var r, r' := db.reports[id], next.reports[id];
            && r'.deleted && r'.path == "" && r'.artifact == None && r'.items == []
            && r'.(deleted := false, path := r.path, artifact := r.artifact, items := r.items) == r)
      && (kept && removal == DiesAfterRemove ==> next.reports == db.reports)
  {
    hide Inv, DeletePath, RowFile;
    if id in db.reports && !db.reports[id].deleted && db.reports[id].status != Generating {
      DeletePathIsFile(db, id);
    }
  }

  // ---- snapshots ----

  function NameIn(names: map<Id, string>, m: Id): string {
    if m in names then names[m] else ""
  }

  /**
   What a snapshot leaves: the earlier items, then one new item for each match of the window that they
   lack, with the notice and today's rule name of its first occurrence there.
   */
  ghost predicate Snapshotted(items: seq<Item>, window: WindowItems, names: map<Id, string>, r: seq<Item>) {
    && items <= r
    && (forall x <- window :: HasMatch(r, x.0))
    && (forall i, j :: |items| <= i < |r| && 0 <= j < i ==> r[j].matchId != r[i].matchId)
    && (forall i :: |items| <= i < |r| ==> FromWindow(window, names, r[i]))
  }

  /** The item of a match where the window first lists it. */
  ghost predicate FromWindow(window: WindowItems, names: map<Id, string>, it: Item) {
    exists k :: FirstListed(window, k, it.matchId) && it == Item(window[k].0, window[k].1, NameIn(names, window[k].0))
  }

  ghost predicate FirstListed(window: WindowItems, k: int, m: Id) {
    0 <= k < |window| && window[k].0 == m && forall j :: 0 <= j < k ==> window[j].0 != m
  }

  lemma {:induction false} SnapshotMeans(items: seq<Item>, window: WindowItems, names: map<Id, string>)
    ensures Snapshotted(items, window, names, SnapshotItems(items, window, names))
    decreases |window|
  {
    SnapshotCovers(items, window, names);
    if window != [] {
      var (m, n) := window[0];
      var next := if HasMatch(items, m) then items else items + [Item(m, n, NameIn(names, m))];
      var r := SnapshotItems(items, window, names);
      SnapshotMeans(next, window[1..], names);
      forall i | |items| <= i < |r| ensures FromWindow(window, names, r[i]) {
        if i < |next| {
          assert r[i] == next[i] && FirstListed(window, 0, m);
        } else {
          LaterItem(window, names, next, r, i);
        }
      }
      forall i, j | |items| <= i < |r| && 0 <= j < i ensures r[j].matchId != r[i].matchId {
        if i < |next| {
          assert r[i] == next[i] && r[j] == next[j] && items[j] in items;
        }
      }
    }
  }

  lemma LaterItem(window: WindowItems, names: map<Id, string>, next: seq<Item>, r: seq<Item>, i: nat)
    requires window != [] && next <= r && |next| <= i < |r| && HasMatch(next, window[0].0)
    requires FromWindow(window[1..], names, r[i])
    requires forall j :: 0 <= j < i ==> r[j].matchId != r[i].matchId
    ensures FromWindow(window, names, r[i])
  {
    var k :| FirstListed(window[1..], k, r[i].matchId)
      && r[i] == Item(window[1..][k].0, window[1..][k].1, NameIn(names, window[1..][k].0));
    var it :| it in next && it.matchId == window[0].0;
    var j :| 0 <= j < |next| && next[j] == it;
    assert r[j] == it;
    assert forall q :: 0 < q < k + 1 ==> window[q] == window[1..][q - 1];
    assert FirstListed(window, k + 1, r[i].matchId);
  }

  // ---- settling and publishing ----

  /** Success leaves the row generated at the worker's path with what it had published; failure only its status. */
  lemma SettledExactly(db: Db, w: Work, windowOk: bool)
    requires Inv(db) && w in db.works
    ensures w.id in db.reports && FileOf(db.tenant, w).Some?
    ensures var r := db.reports[w.id]; var (done, success) := FinalizeReport(db, w, windowOk);
      && (success == Done <==>
            r.token == w.token && r.status == Generating && w.token in db.published && (w.trigger.Manual? || windowOk))
      && (success != Done ==> done == db)
      && (success == Done ==>
            && done.reports.Keys == db.reports.Keys && w.id in done.reports
            && (forall o <- db.reports :: o != w.id ==> done.reports[o] == db.reports[o])
            && var r' := done.reports[w.id];
            && r'.status == Generated && Some(r'.path) == FileOf(db.tenant, w)
            && r'.artifact == Some(db.published[w.token])
            && r'.(status := r.status, path := r.path, artifact := r.artifact) == r
            && done.(reports := db.reports, interrupted := db.interrupted) == db
            && done.interrupted == db.interrupted - {w.id})
    ensures var r := db.reports[w.id]; var (failed, failure) := FinalizeFailure(db, w);
      && (failure == Done <==> r.token == w.token && r.status == Generating)
      && (failure == Done ==> failed == db.(reports := db.reports[w.id := r.(status := Failed)]))
      && (failure != Done ==> failed == db)
  {
    hide FileOf, RowFile, Inv;
    OnlyTheLatestClaimActs(db, w);
    WorkOf(db, w);
    WorkFileOf(db, w);
  }

  /**
   A worker publishes exactly while its claim is the report's and the path is free or already holds the
   same content; then that file, and no other, has its content.
   */
  lemma PublishedExactly(db: Db, w: Work, body: Body, reported: bool)
    requires Inv(db) && w in db.works
    ensures w.id in db.reports && FileOf(db.tenant, w).Some?
    ensures var path := FileOf(db.tenant, w).value; var (next, outcome) := Publish(db, w, body, reported);
      var allowed := db.reports[w.id].token == w.token && db.reports[w.id].status == Generating
        && (path !in db.files || db.files[path] == body);
      && (outcome == Done <==> allowed && reported)
      && (!allowed ==> next == db)
      && (allowed ==> next.files == db.files[path := body] && next.(files := db.files, published := db.published) == db)
      && (allowed ==> next.published == if reported then db.published[w.token := body] else db.published)
  {
    hide FileOf, RowFile, Inv;
    OnlyTheLatestClaimActs(db, w);
    WorkOf(db, w);
    WorkFileOf(db, w);
  }

  // ---- live claims ----

  /** A reclaim of the report, or a tick for its window, whose presented time is past the lease. */
  predicate PastLease(a: Action, id: string, r: Report) {
    || (a.DoReclaim? && a.id == id && r.claimedAt + LEASE < a.now)
    || (a.DoClaimScheduled? && r.trigger == Scheduled(a.schedule) && a.due.at == r.due.at
        && r.claimedAt + LEASE < a.now)
  }

  /** In one step a generating report is taken over only past its lease, and only with an attempt left. */
  lemma TakenOverOnlyPastLease(db: Db, a: Action, id: string)
    requires Inv(db) && id in db.reports && db.reports[id].status == Generating && GrantsAt(db, a, id)
    ensures PastLease(a, id, db.reports[id]) && db.reports[id].attempts < 3
  {
    hide Inv, Reclaim, Retry, ClaimScheduled, Grant;
    match a
    case DoReclaim(_, now) => ReclaimGrantedExactly(db, a.id, now); GrantNames(db, a, id);
    case DoRetry(_, now) => RetryGrantedExactly(db, a.id, now); GrantNames(db, a, id);
    case DoClaimScheduled(newId, schedule, due, now, names) =>
      if o :| IsScheduled(db, o, schedule, due.at) {
        TickReclaimsExactly(db, o, newId, schedule, due, now, names);
      } else {
        TickCreatesExactly(db, newId, schedule, due, now, names);
      }
    case DoClaimManual(newId, due, now, items) => ManualIsNew(db, a);
    case _ => OthersGrantNothing(db, a);
  }

  lemma GrantNames(db: Db, a: Action, id: string)
    requires (a.DoReclaim? || a.DoRetry?) && GrantsAt(db, a, id)
    ensures a.id == id
  {
    hide Grouped;
  }

  lemma ManualIsNew(db: Db, a: Action)
    requires a.DoClaimManual? && Step(db, a).1.Granted?
    ensures Step(db, a).1.work.id == a.id && a.id !in db.reports
  {
    hide Grouped, Placeholder, SafeId, PrintedDue;
  }

  lemma OthersGrantNothing(db: Db, a: Action)
    requires a.FixWindow? || a.DoPublish? || a.DoFinalize? || a.DoFail? || a.DoDelete?
    ensures !Step(db, a).1.Granted?
  {
    hide FileOf, DeletePath;
  }

  /**
   Over a run no one takes a live claim away: while every reclaim and every tick for the report's window
   presents a time within the lease, and the holder has not settled it, the row stays as it is and the
   holder can still publish and settle.
   */
  lemma {:induction false} LiveClaimIsKept(db: Db, run: seq<Action>, w: Work)
    requires Inv(db) && w in db.works && HoldsClaim(db, w)
    requires forall a <- run :: !PastLease(a, w.id, db.reports[w.id]) && Settles(a) != Some((w.id, w.token))
    ensures var final := Run(db, run);
      && w in final.works && w.id in final.reports && final.reports[w.id] == db.reports[w.id]
      && HoldsClaim(final, w) && FinalizeFailure(final, w).1 == Done
    decreases |run|
  {
    if run == [] {
      OnlyTheLatestClaimActs(db, w);
    } else {
      hide Inv, FinalizeFailure, Step;
      assert run[0] in run;
      RowStep(db, run[0], w.id);
      if GrantsAt(db, run[0], w.id) {
        TakenOverOnlyPastLease(db, run[0], w.id);
      }
      UndeletedWhileGenerating(db, w.id);
      StepKeepsInv(db, run[0]);
      WorksStay(db, run[0]);
      LiveClaimIsKept(Step(db, run[0]).0, run[1..], w);
    }
  }
}
