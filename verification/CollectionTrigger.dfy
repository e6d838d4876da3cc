/**
 The coalescing collection trigger: a busy flag, a channel with one slot, any number of callers and
 one worker loop, with cancellation at any point.
 */
module CollectionTrigger {

  /**
   Callers and the loop by where they are: `entering` have seen a live context, `passed` have set the
   flag, `leaving` found the context cancelled and have yet to clear the flag, `ending` is the loop
   after a collection and before it clears the flag. `accepted`, `given` and `done` count history.
   */
  datatype State = State(
    busy: bool, wake: nat, cancelled: bool, alive: bool,
    entering: nat, passed: nat, leaving: nat, running: nat, ending: nat,
    accepted: nat, given: nat, done: nat)

  datatype Action =
    | Enter | Lock | Send | Leave | Clear
    | Receive | Finish | Reset | Exit
    | Cancel

  /** The steps that can be taken: a send needs a free slot, and the loop does one thing at a time. */
  predicate Enabled(s: State, a: Action) {
    match a
    case Enter => !s.cancelled
    case Lock => s.entering > 0
    case Send => s.passed > 0 && s.wake < 1
    case Leave => s.passed > 0 && s.cancelled
    case Clear => s.leaving > 0
    case Receive => s.alive && s.running == 0 && s.ending == 0 && s.wake > 0
    case Finish => s.running > 0
    case Reset => s.ending > 0
    case Exit => s.alive && s.running == 0 && s.ending == 0 && s.cancelled
    case Cancel => true
  }

  function Step(s: State, a: Action): State {
    if !Enabled(s, a) then s
    else
      match a
      case Enter => s.(entering := s.entering + 1)
      case Lock =>
        if s.busy then s.(entering := s.entering - 1)
        else s.(entering := s.entering - 1, busy := true, passed := s.passed + 1, accepted := s.accepted + 1)
      case Send => s.(passed := s.passed - 1, wake := s.wake + 1)
      case Leave => s.(passed := s.passed - 1, leaving := s.leaving + 1)
      case Clear => s.(leaving := s.leaving - 1, busy := false, given := s.given + 1)
      case Receive => s.(wake := s.wake - 1, running := s.running + 1)
      case Finish => s.(running := s.running - 1, ending := s.ending + 1)
      case Reset => s.(ending := s.ending - 1, busy := false, done := s.done + 1)
      case Exit => s.(alive := false)
      case Cancel => s.(cancelled := true)
  }

  function Run(s: State, run: seq<Action>): State
    decreases |run|
  {
    if run == [] then s else Run(Step(s, run[0]), run[1..])
  }

  const START := State(false, 0, false, true, 0, 0, 0, 0, 0, 0, 0, 0)

  /** Whoever made the flag true is in exactly one place on the way to clearing it. */
  ghost predicate Inv(s: State) {
    && s.passed + s.leaving + s.wake + s.running + s.ending == (if s.busy then 1 else 0)
    && s.accepted == s.given + s.done + (if s.busy then 1 else 0)
    && (s.leaving > 0 || !s.alive || s.given > 0 ==> s.cancelled)
    && (!s.alive ==> s.running == 0 && s.ending == 0)
  }

  lemma StepKeepsInv(s: State, a: Action)
    requires Inv(s)
    ensures Inv(Step(s, a))
  {
  }

  lemma {:induction false} RunKeepsInv(s: State, run: seq<Action>)
    requires Inv(s)
    ensures Inv(Run(s, run))
    decreases |run|
  {
    hide Inv, Step;
    if run != [] {
      StepKeepsInv(s, run[0]);
      RunKeepsInv(Step(s, run[0]), run[1..]);
    }
  }

  lemma Reachable(run: seq<Action>)
    ensures Inv(Run(START, run))
  {
    hide Run;
    RunKeepsInv(START, run);
  }

  /**
   For any callers and any point of cancellation: the flag is one token, so a send always finds the
   slot free, collections never overlap, and none is queued behind a running one.
   */
  lemma OneTokenWhileBusy(run: seq<Action>)
    ensures var s := Run(START, run);
      && s.passed + s.leaving + s.wake + s.running + s.ending == (if s.busy then 1 else 0)
      && (s.passed > 0 ==> Enabled(s, Send))
      && s.wake + s.running <= 1
  {
    hide Run, Step;
    Reachable(run);
  }

  /** Every accepted request is collected once, or given up after cancellation, or still under way. */
  lemma AcceptedRequestsAreConserved(run: seq<Action>)
    ensures var s := Run(START, run);
      && s.accepted == s.done + s.given + (if s.busy then 1 else 0)
      && (!s.cancelled ==> s.given == 0)
  {
    hide Run, Step;
    Reachable(run);
  }

  /** The part of the trigger that moves a request forward. */
  predicate Moves(a: Action) {
    a.Send? || a.Clear? || a.Receive? || a.Finish? || a.Reset?
  }

  /**
   While the flag is set, the request behind it can move on, exactly unless it was queued to a loop that
   has exited.
   */
  lemma BusyMovesOnExactly(run: seq<Action>)
    ensures var s := Run(START, run);
      s.busy ==> ((exists a :: Moves(a) && Enabled(s, a)) <==> s.alive || s.wake == 0)
  {
    hide Run, Step;
    Reachable(run);
    var s := Run(START, run);
    if s.busy {
      if s.passed > 0 {
        assert Moves(Send) && Enabled(s, Send);
      } else if s.leaving > 0 {
        assert Moves(Clear) && Enabled(s, Clear);
      } else if s.running > 0 {
        assert Moves(Finish) && Enabled(s, Finish);
      } else if s.ending > 0 {
        assert Moves(Reset) && Enabled(s, Reset);
      } else if s.alive {
        assert Moves(Receive) && Enabled(s, Receive);
      }
    }
  }

  /** The loop exits only after cancellation, so without it no request is ever stuck. */
  lemma NeverStuckBeforeCancellation(run: seq<Action>)
    requires Cancel !in run
    ensures var s := Run(START, run); s.alive && !s.cancelled
    ensures Run(START, run).busy ==> exists a :: Moves(a) && Enabled(Run(START, run), a)
  {
    hide Run, Step;
    NotCancelled(START, run);
    Reachable(run);
    BusyMovesOnExactly(run);
  }

  lemma {:induction false} NotCancelled(s: State, run: seq<Action>)
    requires !s.cancelled && Cancel !in run
    ensures !Run(s, run).cancelled
    decreases |run|
  {
    if run != [] {
      assert run[0] in run;
      NotCancelled(Step(s, run[0]), run[1..]);
    }
  }

  /** After cancellation a queued request can stay behind: the loop may prefer to exit. */
  lemma QueuedRequestCanBeLeftBehind()
    ensures var s := Run(START, [Enter, Lock, Send, Cancel, Exit]);
      s.busy && s.wake == 1 && !s.alive && forall a :: Moves(a) ==> !Enabled(s, a)
  {
    var s1 := State(false, 0, false, true, 1, 0, 0, 0, 0, 0, 0, 0);
    var s2 := State(true, 0, false, true, 0, 1, 0, 0, 0, 1, 0, 0);
    var s3 := State(true, 1, false, true, 0, 0, 0, 0, 0, 1, 0, 0);
    var s4 := State(true, 1, true, true, 0, 0, 0, 0, 0, 1, 0, 0);
    var s5 := State(true, 1, true, false, 0, 0, 0, 0, 0, 1, 0, 0);
    RunFirst(START, Enter, [Lock, Send, Cancel, Exit], s1);
    RunFirst(s1, Lock, [Send, Cancel, Exit], s2);
    RunFirst(s2, Send, [Cancel, Exit], s3);
    RunFirst(s3, Cancel, [Exit], s4);
    RunFirst(s4, Exit, [], s5);
    assert Run(s5, []) == s5;
    assert [Enter, Lock, Send, Cancel, Exit] == [Enter] + [Lock, Send, Cancel, Exit];
    assert [Lock, Send, Cancel, Exit] == [Lock] + [Send, Cancel, Exit];
    assert [Send, Cancel, Exit] == [Send] + [Cancel, Exit];
    assert [Cancel, Exit] == [Cancel] + [Exit];
  }

  lemma RunFirst(s: State, a: Action, rest: seq<Action>, next: State)
    requires Step(s, a) == next
    ensures Run(s, [a] + rest) == Run(next, rest)
  {
    hide Step;
    assert ([a] + rest)[1..] == rest;
  }

  // ---- the code ----

  class Trigger {
    var busy: bool
    var wake: nat
    var cancelled: bool
    ghost var at: State

    ghost predicate Valid()
      reads this
    {
      Inv(at) && at.busy == busy && at.wake == wake && at.cancelled == cancelled
    }

    constructor ()
      ensures Valid() && at == START
    {
      busy, wake, cancelled, at := false, 0, false, START;
    }

    /** The section under the mutex: only one caller goes on to send. */
    method Lock() returns (proceed: bool)
      requires Valid() && at.entering > 0
      modifies this
      ensures Valid() && at == Step(old(at), Action.Lock)
      ensures proceed <==> at.passed == old(at).passed + 1
    {
      at := Step(at, Action.Lock);
      if busy {
        return false;
      }
      busy := true;
      return true;
    }

    /** The select: its send case never waits; the cancelled case is free to win once it is ready. */
    method SendOrLeave(preferCancel: bool) returns (sent: bool)
      requires Valid() && at.passed > 0
      modifies this
      ensures Valid() && at == (if sent then Step(old(at), Send) else Step(Step(old(at), Leave), Clear))
      ensures sent <==> !(old(cancelled) && preferCancel)
    {
      if cancelled && preferCancel {
        at := Step(Step(at, Leave), Clear);
        busy := false;
        return false;
      }
      at := Step(at, Send);
      wake := wake + 1;
      return true;
    }

    /** One turn of the loop that finds a wake: a whole collection, then the flag is cleared. */
    method Collect()
      requires Valid() && at.alive && wake > 0
      modifies this
      ensures Valid() && at == Step(Step(Step(old(at), Receive), Finish), Reset)
      ensures !busy && at.done == old(at).done + 1
    {
      at := Step(Step(Step(at, Receive), Finish), Reset);
      wake := wake - 1;
      busy := false;
    }
  }
}
