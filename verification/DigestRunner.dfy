/**
 The digest runner as a client of the lease protocol: it claims, sends and finalises one delivery
 after another while other workers go on with their own transactions.
 */
module DigestRunner {
  import opened Basics
  import opened Model = DigestModel
  import opened DigestInvariant
  import opened DigestDelivery
  import opened DigestTheorems
  import opened DigestDatabase

  /** One due delivery; without notices its window is closed instead. */
  datatype Item = Item(id: DeliveryId, end: Time, empty: bool)

  /**
   What happens around an item: the others' transactions between its claim and its finalisation
   (given the token, which they do not know), and how building and sending the mail go.
   */
  datatype Luck = Luck(lag: nat, others: nat -> seq<Action>, builds: bool, sends: bool, sentAt: Time)

  datatype Totals = Totals(sent: nat, failed: nat, skipped: nat)

  /** How far the clock moves during a run. */
  function Elapsed(run: seq<Action>): nat {
    if run == [] then 0 else (if run[0].Tick? then run[0].elapsed else 0) + Elapsed(run[1..])
  }

  /**
   The others are workers of the mail flow that derive a delivery's key as everybody does, do not
   present a token that is not theirs, and leave the holder time to finish within the lease.
   */
  ghost predicate Fair(luck: Luck, id: DeliveryId, keyOf: DeliveryId -> string) {
    forall token: nat :: FairRun(luck.others(token), luck.lag, id, token, keyOf)
  }

  /** The least that is asked of the others: they belong to the mail flow. */
  ghost predicate Mailers(luck: Luck) {
    forall token: nat :: DeliveryFlow(luck.others(token))
  }

  ghost predicate FairRun(run: seq<Action>, lag: nat, id: DeliveryId, token: nat, keyOf: DeliveryId -> string) {
    && DeliveryFlow(run) && lag + Elapsed(run) <= LEASE
    && forall a <- run :: (a.DoClaim? ==> a.key == keyOf(a.id)) && !PresentsToken(a, id, token)
  }

  lemma {:induction false} ClockIsElapsed(db: Db, run: seq<Action>)
    ensures Run(db, run).clock == db.clock + Elapsed(run)
    decreases |run|
  {
    if run != [] {
      ClockStep(db, run[0]);
      hide Step;
      ClockIsElapsed(Step(db, run[0]).0, run[1..]);
    }
  }

  lemma ClockStep(db: Db, a: Action)
    ensures Step(db, a).0.clock == db.clock + if a.Tick? then a.elapsed else 0
  {
    hide CompleteWindow, AdoptKey;
    match a
    case DoClaim(lag, id, end, key) =>
      ClaimShape(db, lag, id, end, key);
      hide Claim;
      CompleteClock(AdoptKey(db, id, end, key), id.schedule, id.due, end);
      AdoptClock(db, id, end, key);
      if id in AdoptKey(db, id, end, key).deliveries {
        var d := Reclaimed(AdoptKey(db, id, end, key).deliveries[id], db.clock - lag, db.nextToken);
        CompleteClock(Put(AdoptKey(db, id, end, key), id, d).(nextToken := db.nextToken + 1), id.schedule, id.due, end);
      }
    case DoFinalize(id, end, _, _, _, sentAt) =>
      if id in db.deliveries {
        var d := db.deliveries[id];
        CompleteClock(Put(db, id, if sentAt.Some? then d.(status := Sent, sentAt := sentAt) else d.(status := Failed)),
                      id.schedule, id.due, end);
      }
    case _ =>
  }

  lemma CompleteClock(db: Db, s: Id, due: Time, end: Time)
    ensures CompleteWindow(db, s, due, end).clock == db.clock
  {
  }

  lemma AdoptClock(db: Db, id: DeliveryId, end: Time, key: string)
    ensures AdoptKey(db, id, end, key).clock == db.clock && AdoptKey(db, id, end, key).nextToken == db.nextToken
  {
  }

  /** The mails that have gone out are recorded: each delivery once, and its row is sent. */
  ghost predicate Recorded(db: Db, mailed: seq<DeliveryId>) {
    && (forall i, j :: 0 <= i < j < |mailed| ==> mailed[i] != mailed[j])
    && (forall id <- mailed :: id in db.deliveries && db.deliveries[id].status == Sent)
  }

  lemma RecordedStays(db: Db, run: seq<Action>, mailed: seq<DeliveryId>)
    requires Inv(db) && Recorded(db, mailed)
    ensures Recorded(Run(db, run), mailed)
  {
    hide Inv, Run;
    forall id | id in mailed ensures id in Run(db, run).deliveries && Run(db, run).deliveries[id].status == Sent {
      SentIsFinal(db, run, id);
    }
  }

  lemma RecordedStep(db: Db, a: Action, mailed: seq<DeliveryId>)
    requires Inv(db) && Recorded(db, mailed)
    ensures Recorded(Step(db, a).0, mailed)
  {
    hide Inv, Step;
    forall id | id in mailed ensures id in Step(db, a).0.deliveries && Step(db, a).0.deliveries[id].status == Sent {
      SentSurvivesStep(db, a, id);
    }
  }

  /** A delivery that has been sent is not claimed again. */
  lemma SentIsNotClaimed(db: Db, lag: nat, id: DeliveryId, end: Time, key: string)
    requires Inv(db) && id in db.deliveries && db.deliveries[id].status == Sent
    ensures !Claim(db, lag, id, end, key).1.Claimed?
  {
    hide Inv, CompleteWindow;
    ClaimShape(db, lag, id, end, key);
    hide Claim;
  }

  /** A finalisation that succeeds as sent leaves the row sent. */
  lemma FinalizedIsSent(db: Db, id: DeliveryId, end: Time, key: string, token: nat, attempts: int, sentAt: Time)
    requires Finalize(db, id, end, key, token, attempts, Some(sentAt)).1 == Finalized
    ensures var next := Finalize(db, id, end, key, token, attempts, Some(sentAt)).0;
      id in next.deliveries && next.deliveries[id].status == Sent
  {
    hide CompleteWindow;
    CompleteTouches(Put(db, id, db.deliveries[id].(status := Sent, sentAt := Some(sentAt))), id, end);
  }

  /** The others' transactions, one after another. */
  method LetOthers(db: Database, run: seq<Action>)
    requires db.Valid()
    modifies db
    ensures db.Valid() && db.State() == Run(old(db.State()), run)
  {
    hide Inv, Step;
    var i := 0;
    while i < |run|
      invariant 0 <= i <= |run| && db.Valid()
      invariant Run(db.State(), run[i..]) == Run(old(db.State()), run)
    {
      var outcome := db.Act(run[i]);
      assert run[i..][1..] == run[i + 1..];
      i := i + 1;
    }
  }

  datatype Result = Mailed | Skipped | Lost

  /**
   One item; `mailed` are the deliveries counted as sent before it. A mail that goes out counts as
   sent exactly when its finalisation succeeds, which it does whenever the others are fair.
   */
  method Deliver(db: Database, item: Item, luck: Luck, keyOf: DeliveryId -> string, ghost mailed: seq<DeliveryId>)
    returns (result: Result, out: bool, recorded: bool)
    requires FlowInv(db.State()) && Mailers(luck) && Recorded(db.State(), mailed)
    modifies db
    ensures FlowInv(db.State())
    ensures Recorded(db.State(), if result == Mailed then mailed + [item.id] else mailed)
    ensures result == Mailed <==> out && recorded
    ensures var (claimed, grant) := Claim(old(db.State()), luck.lag, item.id, item.end, keyOf(item.id));
      && (out <==> !item.empty && grant.Claimed? && luck.builds && luck.sends)
      && (!item.empty && grant.Claimed? ==> var at := Run(claimed, luck.others(grant.token));
            recorded == (Finalize(at, item.id, item.end, keyOf(item.id), grant.token, grant.attempts,
              if out then Some(luck.sentAt) else None).1 == Finalized))
      && (!item.empty && grant.Claimed? && Fair(luck, item.id, keyOf) ==> recorded)
  {
    hide Inv, Work, ActiveInPending, Claim, Run, Finalize, CompleteNoop, Recorded, Fair;
    var id, end, key := item.id, item.end, keyOf(item.id);
    out, recorded := false, false;
    if item.empty {
      NoopKeepsFlow(db.State(), id.schedule, id.due, end);
      RecordedStep(db.State(), Noop(id.schedule, id.due, end), mailed);
      var outcome := db.CompleteNoop(id.schedule, id.due, end);
      result := if outcome == Rejected then Lost else Skipped;
      return;
    }
    ghost var before := db.State();
    ClaimKeepsFlow(before, luck.lag, id, end, key);
    RecordedStep(before, DoClaim(luck.lag, id, end, key), mailed);
    var claim := db.Claim(luck.lag, id, end, key);
    if !claim.Claimed? {
      result := if claim == Rejected then Lost else Skipped;
      return;
    }
    ghost var claimed := db.State();
    NotMailedYet(before, luck.lag, id, end, key, mailed);
    if Fair(luck, id, keyOf) {
      FinalizeWillSucceed(before, luck, id, end, keyOf, Some(luck.sentAt));
      FinalizeWillSucceed(before, luck, id, end, keyOf, None);
    }
    RecordedStays(claimed, luck.others(claim.token), mailed);
    RunKeepsFlow(claimed, luck.others(claim.token));
    LetOthers(db, luck.others(claim.token));
    out := luck.builds && luck.sends;
    recorded := Settle(db, id, end, key, claim, out, luck.sentAt, mailed);
    result := if out && recorded then Mailed else Lost;
  }

  /** Finalise what was claimed, as sent if the mail went out and as failed otherwise. */
  method Settle(db: Database, id: DeliveryId, end: Time, key: string, claim: Outcome, out: bool, sentAt: Time,
                ghost mailed: seq<DeliveryId>)
    returns (recorded: bool)
    requires FlowInv(db.State()) && Recorded(db.State(), mailed) && claim.Claimed? && id !in mailed
    modifies db
    ensures FlowInv(db.State())
    ensures Recorded(db.State(), if out && recorded then mailed + [id] else mailed)
    ensures var at := if out then Some(sentAt) else None;
      recorded == (Finalize(old(db.State()), id, end, key, claim.token, claim.attempts, at).1 == Finalized)
  {
    hide Inv, Work, ActiveInPending, Finalize, Recorded;
    ghost var before := db.State();
    if !out {
      FinalizeKeepsFlow(before, DoFinalize(id, end, key, claim.token, claim.attempts, None));
      RecordedStep(before, DoFinalize(id, end, key, claim.token, claim.attempts, None), mailed);
      var outcome := db.FinalizeFailure(id, end, key, claim.token, claim.attempts);
      return outcome == Finalized;
    }
    FinalizeKeepsFlow(before, DoFinalize(id, end, key, claim.token, claim.attempts, Some(sentAt)));
    RecordedStep(before, DoFinalize(id, end, key, claim.token, claim.attempts, Some(sentAt)), mailed);
    var outcome := db.FinalizeSent(id, end, key, claim.token, claim.attempts, sentAt);
    recorded := outcome == Finalized;
    if recorded {
      FinalizedIsSent(before, id, end, key, claim.token, claim.attempts, sentAt);
      MoreRecorded(db.State(), mailed, id);
    }
  }

  lemma NotMailedYet(db: Db, lag: nat, id: DeliveryId, end: Time, key: string, mailed: seq<DeliveryId>)
    requires Inv(db) && Recorded(db, mailed) && Claim(db, lag, id, end, key).1.Claimed?
    ensures id !in mailed
  {
    hide Inv, Claim;
    if id in mailed {
      SentIsNotClaimed(db, lag, id, end, key);
    }
  }

  lemma MoreRecorded(db: Db, mailed: seq<DeliveryId>, id: DeliveryId)
    requires Recorded(db, mailed) && id !in mailed && id in db.deliveries && db.deliveries[id].status == Sent
    ensures Recorded(db, mailed + [id])
  {
  }

  /** Whatever the others do, the holder's finalisation succeeds, and the database stays good. */
  lemma FinalizeWillSucceed(db: Db, luck: Luck, id: DeliveryId, end: Time, keyOf: DeliveryId -> string,
                            sentAt: Option<Time>)
    requires FlowInv(db) && Fair(luck, id, keyOf) && Claim(db, luck.lag, id, end, keyOf(id)).1.Claimed?
    ensures var (claimed, grant) := Claim(db, luck.lag, id, end, keyOf(id));
      var after := Run(claimed, luck.others(grant.token));
      FlowInv(after) && Finalize(after, id, end, keyOf(id), grant.token, grant.attempts, sentAt).1 == Finalized
  {
    hide Inv, Work, ActiveInPending, Claim, Run, Finalize;
    var (claimed, grant) := Claim(db, luck.lag, id, end, keyOf(id));
    var run := luck.others(grant.token);
    assert FairRun(run, luck.lag, id, grant.token, keyOf);
    ClaimKeepsFlow(db, luck.lag, id, end, keyOf(id));
    RunKeepsFlow(claimed, run);
    GrantedClaimIsHeld(db, luck.lag, id, end, keyOf(id));
    ClockIsElapsed(claimed, run);
    HolderAlwaysFinalizes(db, luck.lag, id, end, keyOf, run, sentAt);
  }

  /**
   A whole run over the due items. Every item is counted once; no delivery is counted as sent twice and
   each that is counted is recorded as sent. Mails that went out but could not be recorded are counted
   as failed; there are none of them when the others are fair.
   */
  method RunDigests(db: Database, work: seq<Item>, luck: nat -> Luck, keyOf: DeliveryId -> string)
    returns (totals: Totals, mailed: seq<DeliveryId>, unrecorded: nat)
    requires FlowInv(db.State()) && forall i: nat :: i < |work| ==> Mailers(luck(i))
    modifies db
    ensures FlowInv(db.State())
    ensures totals.sent + totals.failed + totals.skipped == |work|
    ensures |mailed| == totals.sent && Recorded(db.State(), mailed)
    ensures unrecorded <= totals.failed
    ensures (forall i: nat :: i < |work| ==> Fair(luck(i), work[i].id, keyOf)) ==> unrecorded == 0
  {
    hide FlowInv, Fair, Mailers, Recorded, Claim, Run, Finalize;
    totals, mailed, unrecorded := Totals(0, 0, 0), [], 0;
    NothingRecorded(db.State());
    for i := 0 to |work|
      invariant FlowInv(db.State()) && Recorded(db.State(), mailed)
      invariant totals.sent + totals.failed + totals.skipped == i && |mailed| == totals.sent
      invariant unrecorded <= totals.failed
      invariant (forall k: nat :: k < i ==> Fair(luck(k), work[k].id, keyOf)) ==> unrecorded == 0
    {
      var around := luck(i);
      var result, out, recorded := Deliver(db, work[i], around, keyOf, mailed);
      match result
      case Mailed =>
        totals := totals.(sent := totals.sent + 1);
        mailed := mailed + [work[i].id];
      case Skipped =>
        totals := totals.(skipped := totals.skipped + 1);
      case Lost =>
        totals := totals.(failed := totals.failed + 1);
        unrecorded := unrecorded + if out then 1 else 0;
    }
  }

  lemma NothingRecorded(db: Db)
    ensures Recorded(db, [])
  {
  }
}
