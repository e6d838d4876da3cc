/** The report job's transaction for one schedule, statement by statement. */
module ReportJob {
  import opened Basics
  import D = DigestModel
  import DueTimes
  import F = ReportFlow
  import R = ReportModel

  class Job {
    var sc: D.Schedule
    var reports: map<Time, F.Rep>
    var nextToken: nat

    function State(): F.Flow
      reads this
    {
      F.Flow(sc, reports, nextToken)
    }

    constructor ()
      ensures State() == F.EMPTY && F.Inv(State())
    {
      sc, reports, nextToken := D.Schedule(None, []), map[], 0;
    }

    /** The query for the newest completed window that is not reported. */
    method SelectUnreported(dbNow: Time) returns (r: Option<nat>)
      ensures r == F.NewestUnreported(reports, sc.windows, dbNow)
    {
      var n := |sc.windows|;
      assert sc.windows[..n] == sc.windows;
      while n > 0
        invariant 0 <= n <= |sc.windows|
        invariant F.NewestUnreported(reports, sc.windows, dbNow) == F.NewestUnreported(reports, sc.windows[..n], dbNow)
      {
        assert sc.windows[..n][..n - 1] == sc.windows[..n - 1];
        var w := sc.windows[n - 1];
        if w.status == D.WindowCompleted && w.items != {}
          && (w.due !in reports || F.Reclaimable(reports[w.due], dbNow)) {
          return Some(n - 1);
        }
        n := n - 1;
      }
      return None;
    }

    /** Select or fix the window of this tick and claim its report; a broken check undoes all of it. */
    method Tick(now: Time, dbNow: Time, hour: int, minute: int, weekdays: seq<int>, visible: set<D.Match>,
                recipients: set<Id>)
      returns (outcome: F.Outcome)
      modifies this
      ensures (State(), outcome) == F.Tick(old(State()), now, dbNow, hour, minute, weekdays, visible, recipients)
    {
      var before := sc;
      var found := SelectUnreported(dbNow);
      if found.None? {
        found := D.FindPending(sc.windows);
      }
      if found.None? {
        var due := DueTimes.LatestDigestDue(now, sc.lastSuccess, hour, minute, weekdays);
        if due.None? {
          return F.Idle;
        }
        var items := D.Snapshot(visible, sc.lastSuccess, now);
        var w := D.Window(due.value, now, D.WindowPending, sc.lastSuccess, items, recipients);
        found := Some(|sc.windows|);
        sc := sc.(windows := sc.windows + [w]);
      } else if sc.windows[found.value].end < sc.windows[found.value].due {
        return F.Idle;
      }
      outcome := ClaimScheduled(found.value, now);
      if outcome == F.Broken || outcome == F.Refused {
        sc := before;
      }
    }

    method ClaimScheduled(i: nat, now: Time) returns (outcome: F.Outcome)
      requires i < |sc.windows|
      modifies this
      ensures (State(), outcome) == F.ClaimFor(old(State()), i, now)
    {
      var w := sc.windows[i];
      var hasItems := w.items != {};
      var deleted := w.due in reports && reports[w.due].deleted;
      if deleted || !hasItems {
        if w.status == D.WindowFailed {
          return F.Refused;
        }
        if w.status == D.WindowPending {
          var windows := sc.windows[i := w.(status := D.WindowCompleted)];
          sc := D.Schedule(Some(Greatest(sc.lastSuccess, w.end)), windows);
        }
        return F.Done;
      }
      if sc.lastSuccess.Some? && sc.lastSuccess.value > w.end {
        return F.Broken;
      }
      if w.due !in reports {
        reports := reports[w.due := F.Rep(R.Generating, 1, nextToken, now, false, sc.lastSuccess)];
      } else if F.Reclaimable(reports[w.due], now) {
        var r := reports[w.due];
        var r' := r.(status := R.Generating, attempts := r.attempts + 1, token := nextToken, claimedAt := now);
        reports := reports[w.due := r'];
      } else {
        return F.Skipped;
      }
      nextToken := nextToken + 1;
      return F.Granted(w.due, nextToken - 1);
    }
  }
}
