/** What the event loop does with scheduled bottom halves (qemu/async.c, qemu/aio-posix.c): whoever is taken is called,
    nobody else is, a poll calls all that was scheduled before its dispatch, and the deleted are freed. */
module EventCalls {
  import opened EventLoop

  /** qemu_bh_cancel of `b`, or a step of qemu_bh_delete. */
  ghost predicate Withdraws(s: State, s': State, b: Id) {
    || Steps(s, s', Cancel(b))
    || (exists t :: Steps(s, s', Delete(t, b)))
    || (exists t :: At(s, t, Deleting(b)) && Steps(s, s', MarkDeleted(t)))
  }

  /** `b` is no longer scheduled. */
  ghost predicate Falls(s: State, s': State, b: Id) {
    b in s.bhs && b in s'.bhs && s.bhs[b].scheduled && !s'.bhs[b].scheduled
  }

  /** The poller has taken `b` and is about to call it. */
  predicate IsTaken(p: Poller, b: Id) { p.Dispatching? && p.phase == Taken(b) }

  predicate InCallback(p: Poller) { p.Dispatching? && p.phase.Calling? }

  lemma StepOf(run: seq<State>, i: nat) returns (step: Step)
    requires IsRun(run) && i + 1 < |run|
    ensures Steps(run[i], run[i + 1], step)
  {
    hide Steps;
    assert Next(run[i], run[i + 1]);
    step :| Steps(run[i], run[i + 1], step);
  }

  /** Waiting is not dispatching. */
  lemma WaitNotTaken(s: State, s': State, step: Step)
    requires WaitStep(s, s', step)
    ensures !s.poller.Dispatching? && (s'.poller.Dispatching? ==> s'.poller.phase.Looking?)
  {
  }

  lemma WalkCalls(s: State, s': State, step: Step)
    requires WalkStep(s, s', step)
    ensures s'.calls == s.calls || (s.poller.Dispatching? && s.poller.phase.Taken?)
    ensures s.poller.Dispatching? && s.poller.phase.Taken? ==>
              InCallback(s'.poller) && s'.calls == s.calls + [s.poller.phase.bh]
  {
  }

  /** A callback is entered exactly when the poller goes on after taking a bottom half. */
  lemma CallStep(s: State, s': State, step: Step)
    requires Steps(s, s', step)
    ensures s'.calls == s.calls || (s.poller.Dispatching? && s.poller.phase.Taken?)
    ensures s.poller.Dispatching? && s.poller.phase.Taken? ==>
              || (s'.poller == s.poller && s'.calls == s.calls)
              || (InCallback(s'.poller) && s'.calls == s.calls + [s.poller.phase.bh])
  {
    hide WaitStep, WalkStep, ScheduleStep, OwnerStep, Within;
    if WaitStep(s, s', step) {
      WaitFrame(s, s', step);
      WaitNotTaken(s, s', step);
    } else if WalkStep(s, s', step) {
      WalkCalls(s, s', step);
    } else if ScheduleStep(s, s', step) {
      ScheduleFrame(s, s', step);
    } else {
      OwnerFrame(s, s', step);
    }
  }

  lemma CallsGrow(s: State, s': State, step: Step)
    requires Steps(s, s', step)
    ensures s.calls <= s'.calls
  {
    hide Steps;
    CallStep(s, s', step);
  }

  // Whoever is taken is called.

  /** Only aio_bh_poll, qemu_bh_cancel and qemu_bh_delete make a bottom half unscheduled. */
  lemma FallsTaken(s: State, s': State, step: Step, b: Id)
    requires Steps(s, s', step) && Falls(s, s', b) && !Withdraws(s, s', b)
    ensures IsTaken(s'.poller, b) && s'.calls == s.calls
  {
    hide WaitStep, WalkStep, ScheduleStep, OwnerStep, Falls, Withdraws;
    if WaitStep(s, s', step) {
      WaitFrame(s, s', step);
      SameBhs(s, s', b);
    } else if WalkStep(s, s', step) {
      WalkFalls(s, s', step, b);
    } else if ScheduleStep(s, s', step) {
      ScheduleRises(s, s', step, b);
    } else {
      OwnerFalls(s, s', step, b);
    }
  }

  lemma SameBhs(s: State, s': State, b: Id)
    requires s'.bhs == s.bhs
    ensures !Falls(s, s', b)
  {
  }

  lemma WalkFalls(s: State, s': State, step: Step, b: Id)
    requires WalkStep(s, s', step) && Falls(s, s', b)
    ensures IsTaken(s'.poller, b) && s'.calls == s.calls
  {
  }

  lemma ScheduleRises(s: State, s': State, step: Step, b: Id)
    requires ScheduleStep(s, s', step)
    ensures !Falls(s, s', b)
  {
  }

  lemma OwnerFalls(s: State, s': State, step: Step, b: Id)
    requires OwnerStep(s, s', step) && Falls(s, s', b)
    ensures Withdraws(s, s', b)
  {
    assert Steps(s, s', step);
  }

  /** From step `i` to state `j`, the poller is about to call `b`. */
  ghost predicate StillTaken(run: seq<State>, i: nat, j: nat, b: Id)
    requires i < j < |run|
  {
    && IsTaken(run[i + 1].poller, b)
    && forall k :: i < k <= j ==> run[k].poller == run[i + 1].poller && run[k].calls == run[i].calls
  }

  /** The poller does nothing else between step `i` and the call of `b`, which it enters in state `k`. */
  ghost predicate CalledAt(run: seq<State>, i: nat, k: nat, b: Id)
    requires i + 1 < k < |run|
  {
    StillTaken(run, i, k - 1, b) && InCallback(run[k].poller) && run[k].calls == run[i].calls + [b]
  }

  /** A bottom half that becomes unscheduled without being cancelled or deleted is called before the walk goes on. */
  lemma {:induction false} TakenIsCalled(run: seq<State>, i: nat, j: nat, b: Id)
    requires IsRun(run) && i < j < |run| && Falls(run[i], run[i + 1], b) && !Withdraws(run[i], run[i + 1], b)
    ensures StillTaken(run, i, j, b) || exists k: nat :: i + 1 < k <= j && CalledAt(run, i, k, b)
    decreases j - i
  {
    hide IsRun, Steps, Falls, Withdraws;
    if j == i + 1 {
      var step := StepOf(run, i);
      FallsTaken(run[i], run[i + 1], step, b);
    } else {
      TakenIsCalled(run, i, j - 1, b);
      if StillTaken(run, i, j - 1, b) {
        var step := StepOf(run, j - 1);
        CallStep(run[j - 1], run[j], step);
        if InCallback(run[j].poller) {
          assert CalledAt(run, i, j, b);
        }
      }
    }
  }

  // Nobody else is called.

  lemma CallIsTaken(s: State, s': State, step: Step, b: Id)
    requires Steps(s, s', step) && s'.calls == s.calls + [b]
    ensures IsTaken(s.poller, b)
  {
    hide Steps;
    CallStep(s, s', step);
    assert (s.calls + [b])[|s.calls|] == b;
  }

  lemma WalkTakes(s: State, s': State, step: Step, b: Id)
    requires WalkStep(s, s', step) && IsTaken(s'.poller, b)
    ensures Falls(s, s', b)
  {
  }

  lemma BecomesTaken(s: State, s': State, step: Step, b: Id)
    requires Steps(s, s', step) && IsTaken(s'.poller, b)
    ensures s'.poller == s.poller || Falls(s, s', b)
  {
    hide WaitStep, WalkStep, ScheduleStep, OwnerStep, Falls;
    if WaitStep(s, s', step) {
      WaitNotTaken(s, s', step);
    } else if WalkStep(s, s', step) {
      WalkTakes(s, s', step, b);
    } else if ScheduleStep(s, s', step) {
      ScheduleFrame(s, s', step);
    } else {
      OwnerFrame(s, s', step);
    }
  }

  /** A callback that is entered belongs to a bottom half that was scheduled and that this walk has taken. */
  lemma CalledWasTaken(run: seq<State>, j: nat, b: Id) returns (i: nat)
    requires IsRun(run) && j + 1 < |run| && run[j + 1].calls == run[j].calls + [b]
    ensures i < j && Falls(run[i], run[i + 1], b)
    ensures forall k :: i < k <= j ==> run[k].poller == run[j].poller && IsTaken(run[k].poller, b)
  {
    hide Steps, Falls;
    var step := StepOf(run, j);
    CallIsTaken(run[j], run[j + 1], step, b);
    i := j;
    while i > 0 && run[i - 1].poller == run[j].poller
      invariant i <= j
      invariant forall k :: i <= k <= j ==> run[k].poller == run[j].poller && IsTaken(run[k].poller, b)
    {
      i := i - 1;
    }
    i := i - 1;
    step := StepOf(run, i);
    BecomesTaken(run[i], run[i + 1], step, b);
  }

  // A poll calls all that was scheduled before its dispatch.

  /** The poll that the poller is in has not dispatched yet. */
  predicate BeforeDispatch(p: Poller) { p.Raised? || p.Computing? || p.Polling? || p.Lowered? || p.Clearing? }

  predicate InTodo(p: Poller, b: Id) { (p.Checking? || p.Dispatching?) && b in p.todo }

  /** The walk at depth `d` of nested polls is still going to meet `b`. */
  ghost predicate Ahead(s: State, d: nat, b: Id)
    requires d <= |s.outer|
  {
    if |s.outer| == d then BeforeDispatch(s.poller) || InTodo(s.poller, b) else b in s.outer[|s.outer| - 1 - d]
  }

  /** A scheduled bottom half that the poll at depth `d` is going to call, unless a nested one does. */
  ghost predicate Owed(s: State, d: nat, b: Id) {
    && d <= |s.outer| && b in s.bhs
    && (IsTaken(s.poller, b) || (s.bhs[b].scheduled && !s.bhs[b].deleted && Ahead(s, d, b)))
  }

  /** A walk over the list, or further along the walk before, is still going to meet `b`. */
  lemma AheadStill(s: State, s': State, d: nat, b: Id)
    requires d <= |s.outer| && s'.outer == s.outer && Ahead(s, d, b)
    requires BeforeDispatch(s.poller) || InTodo(s.poller, b) ==> BeforeDispatch(s'.poller) || InTodo(s'.poller, b)
    ensures Ahead(s', d, b)
  {
  }

  lemma WaitAhead(s: State, s': State, step: Step, b: Id)
    requires WaitStep(s, s', step) && b in s.list && (BeforeDispatch(s.poller) || InTodo(s.poller, b))
    ensures BeforeDispatch(s'.poller) || InTodo(s'.poller, b)
  {
  }

  lemma WaitOwed(s: State, s': State, step: Step, d: nat, b: Id)
    requires WaitStep(s, s', step) && b in s.list && Owed(s, d, b)
    ensures Owed(s', d, b)
  {
    WaitFrame(s, s', step);
    WaitNotTaken(s, s', step);
    hide WaitStep, Ahead, Within, BeforeDispatch, InTodo;
    if BeforeDispatch(s.poller) || InTodo(s.poller, b) {
      WaitAhead(s, s', step, b);
    }
    AheadStill(s, s', d, b);
  }

  lemma CheckAhead(s: State, s': State, step: Step, b: Id)
    requires WalkStep(s, s', step) && s.poller.Checking? && b in s.list && InTodo(s.poller, b)
    requires b in s.bhs && s.bhs[b].scheduled && !s.bhs[b].deleted
    ensures InTodo(s'.poller, b)
  {
    assert s.poller.todo == [s.poller.todo[0]] + s.poller.todo[1..];
  }

  lemma CheckOwed(s: State, s': State, step: Step, d: nat, b: Id)
    requires WalkStep(s, s', step) && s.poller.Checking? && b in s.list && Owed(s, d, b)
    ensures Owed(s', d, b)
  {
    CheckFrame(s, s', step);
    hide WalkStep, Ahead, Within, InTodo;
    if InTodo(s.poller, b) {
      CheckAhead(s, s', step, b);
    }
    AheadStill(s, s', d, b);
  }

  /** The next read of aio_bh_poll takes `b`, or leaves it as it is and does not pass it by. */
  lemma DispatchAhead(s: State, b: Id)
    requires s.poller.Dispatching? && s.poller.phase.Looking? && s.poller.todo != [] && s.poller.todo[0] in s.bhs
    requires b in s.bhs && s.bhs[b].scheduled && !s.bhs[b].deleted
    ensures var s' := Dispatched(s);
            && s'.outer == s.outer
            && (IsTaken(s'.poller, b)
                || (b in s'.bhs && s'.bhs[b] == s.bhs[b] && (InTodo(s.poller, b) ==> InTodo(s'.poller, b))))
  {
    assert s.poller.todo == [s.poller.todo[0]] + s.poller.todo[1..];
  }

  lemma DispatchOwed(s: State, s': State, d: nat, b: Id)
    requires WalkStep(s, s', DispatchOne) && Owed(s, d, b)
    ensures Owed(s', d, b)
  {
    hide Dispatched, Ahead, InTodo;
    DispatchFrame(s);
    DispatchAhead(s, b);
    hide Within;
    assert b in s'.bhs.Keys;
    if !IsTaken(s'.poller, b) {
      AheadStill(s, s', d, b);
    }
  }

  lemma ClearOwed(s: State, s': State, d: nat, b: Id)
    requires WalkStep(s, s', ClearIdle) && Owed(s, d, b)
    ensures Owed(s', d, b) || s'.calls == s.calls + [b]
  {
    hide Ahead;
    if !IsTaken(s.poller, b) {
      AheadStill(s, s', d, b);
    }
  }

  lemma ReturnOwed(s: State, s': State, d: nat, b: Id)
    requires WalkStep(s, s', Return) && Owed(s, d, b)
    ensures Owed(s', d, b)
  {
    hide Ahead;
    AheadStill(s, s', d, b);
  }

  lemma NestOwed(s: State, s': State, d: nat, b: Id)
    requires WalkStep(s, s', NestPoll) && Owed(s, d, b)
    ensures Owed(s', d, b)
  {
    assert s'.outer[1..] == s.outer;
  }

  lemma EndOwed(s: State, s': State, d: nat, b: Id)
    requires WalkStep(s, s', EndDispatch) && Owed(s, d, b)
    ensures Owed(s', d, b)
  {
    assert s.outer != [];
  }

  lemma WalkOwed(s: State, s': State, step: Step, d: nat, b: Id)
    requires WalkStep(s, s', step) && b in s.list && Owed(s, d, b)
    ensures Owed(s', d, b) || s'.calls == s.calls + [b]
  {
    assert s.poller.Checking? || step == DispatchOne || step == ClearIdle || step == Return || step == NestPoll
        || step == EndDispatch;
    hide WalkStep, Owed;
    if s.poller.Checking? {
      CheckOwed(s, s', step, d, b);
    } else if step == DispatchOne {
      DispatchOwed(s, s', d, b);
    } else if step == ClearIdle {
      ClearOwed(s, s', d, b);
    } else if step == Return {
      ReturnOwed(s, s', d, b);
    } else if step == NestPoll {
      NestOwed(s, s', d, b);
    } else {
      EndOwed(s, s', d, b);
    }
  }

  /** Other threads do not touch the poller's walks. */
  lemma OthersOwed(s: State, s': State, d: nat, b: Id)
    requires s'.poller == s.poller && s'.outer == s.outer && Owed(s, d, b)
    requires b in s'.bhs
    requires s.bhs[b].scheduled && !s.bhs[b].deleted ==> s'.bhs[b].scheduled && !s'.bhs[b].deleted
    ensures Owed(s', d, b)
  {
  }

  lemma ScheduleKeeps(s: State, s': State, step: Step, b: Id)
    requires ScheduleStep(s, s', step) && b in s.bhs
    ensures b in s'.bhs && (s.bhs[b].scheduled ==> s'.bhs[b].scheduled) && s'.bhs[b].deleted == s.bhs[b].deleted
  {
  }

  lemma OwnerKeeps(s: State, s': State, step: Step, b: Id)
    requires OwnerStep(s, s', step) && b in s.bhs
    ensures b in s'.bhs && (s'.bhs[b] == s.bhs[b] || Withdraws(s, s', b))
  {
    assert Steps(s, s', step);
  }

  lemma StepOwed(s: State, s': State, step: Step, d: nat, b: Id)
    requires Allocated(s) && Steps(s, s', step) && Owed(s, d, b)
    ensures Owed(s', d, b) || Withdraws(s, s', b) || s'.calls == s.calls + [b]
  {
    assert b in s.bhs && b in s.list;
    hide WaitStep, WalkStep, ScheduleStep, OwnerStep, Allocated, Owed, Withdraws;
    if WaitStep(s, s', step) {
      WaitOwed(s, s', step, d, b);
    } else if WalkStep(s, s', step) {
      WalkOwed(s, s', step, d, b);
    } else if ScheduleStep(s, s', step) {
      ScheduleFrame(s, s', step);
      ScheduleKeeps(s, s', step, b);
      OthersOwed(s, s', d, b);
    } else {
      OwnerFrame(s, s', step);
      OwnerKeeps(s, s', step, b);
      if s'.bhs[b] == s.bhs[b] {
        OthersOwed(s, s', d, b);
      }
    }
  }

  /** Between the states `i` and `j`, `b` was cancelled or deleted, or called. */
  ghost predicate Settled(run: seq<State>, i: nat, j: nat, b: Id)
    requires i <= j < |run|
  {
    || (exists k: nat :: i <= k < j && Withdraws(run[k], run[k + 1], b))
    || (run[i].calls <= run[j].calls && b in run[j].calls[|run[i].calls|..])
  }

  lemma {:induction false} OwedUntilSettled(run: seq<State>, i: nat, j: nat, d: nat, b: Id)
    requires IsRun(run) && i <= j < |run| && Owed(run[i], d, b)
    ensures Owed(run[j], d, b) || Settled(run, i, j, b)
    ensures run[i].calls <= run[j].calls
    decreases j - i
  {
    hide IsRun, Steps, Owed, Withdraws;
    if i < j {
      OwedUntilSettled(run, i, j - 1, d, b);
      var step := StepOf(run, j - 1);
      CallsGrow(run[j - 1], run[j], step);
      var n := |run[i].calls|;
      assert forall c :: c in run[j - 1].calls[n..] ==> c in run[j].calls[n..];
      if Owed(run[j - 1], d, b) {
        WalksAllocated(run, j - 1);
        StepOwed(run[j - 1], run[j], step, d, b);
        if run[j].calls == run[j - 1].calls + [b] {
          assert run[j].calls[|run[j].calls| - 1] == b;
        }
      }
    }
  }

  /** Every bottom half that is scheduled before a poll dispatches has been called when the poll is over, unless it was
      cancelled or deleted meanwhile, whatever polls the callbacks nest and whatever other threads do. */
  lemma PollCallsAll(run: seq<State>, i: nat, j: nat, b: Id)
    requires IsRun(run) && i <= j < |run| && BeforeDispatch(run[i].poller)
    requires b in run[i].bhs && run[i].bhs[b].scheduled && !run[i].bhs[b].deleted
    requires run[j].poller.Outside? && |run[j].outer| <= |run[i].outer|
    ensures Settled(run, i, j, b)
  {
    OwedUntilSettled(run, i, j, |run[i].outer|, b);
  }

  // The deleted are freed.

  /** The outermost dispatch ends. */
  ghost predicate Ends(s: State, s': State) {
    s.poller.Dispatching? && s'.poller.Outside? && s.outer == s'.outer == []
  }

  lemma WaitEndsNot(s: State, s': State, step: Step)
    requires WaitStep(s, s', step)
    ensures !Ends(s, s')
  {
  }

  lemma WalkFrees(s: State, s': State, step: Step, b: Id)
    requires WalkStep(s, s', step) && b in s.bhs
    ensures b !in s'.bhs <==> s.bhs[b].deleted && Ends(s, s')
  {
  }

  lemma FreedStep(s: State, s': State, step: Step, b: Id)
    requires Steps(s, s', step) && b in s.bhs
    ensures b !in s'.bhs <==> s.bhs[b].deleted && Ends(s, s')
  {
    hide WaitStep, WalkStep, ScheduleStep, OwnerStep, Within;
    if WaitStep(s, s', step) {
      WaitFrame(s, s', step);
      WaitEndsNot(s, s', step);
    } else if WalkStep(s, s', step) {
      WalkFrees(s, s', step, b);
    } else if ScheduleStep(s, s', step) {
      ScheduleFrame(s, s', step);
      assert b in s'.bhs.Keys;
    } else {
      OwnerFrame(s, s', step);
      assert b in s'.bhs.Keys;
    }
  }

  /** A bottom half is freed exactly when the outermost dispatch ends and it has been deleted. */
  lemma FreedExactly(run: seq<State>, i: nat, b: Id)
    requires IsRun(run) && i + 1 < |run| && b in run[i].bhs
    ensures b !in run[i + 1].bhs <==> run[i].bhs[b].deleted && Ends(run[i], run[i + 1])
  {
    hide IsRun, Steps, Ends;
    var step := StepOf(run, i);
    FreedStep(run[i], run[i + 1], step, b);
  }

  // Scheduling and cancelling.

  /** A thread completes qemu_bh_schedule's exchange, or qemu_bh_schedule_idle, for `b`. */
  ghost predicate Schedules(s: State, s': State, b: Id) {
    exists t :: MakesScheduled(s, s', t, b)
  }

  ghost predicate MakesScheduled(s: State, s': State, t: Thread, b: Id) {
    || (At(s, t, Scheduling(b)) && !At(s', t, Scheduling(b)))
    || (At(s, t, SchedulingIdle(b)) && !At(s', t, SchedulingIdle(b)))
  }

  lemma WalkWorkers(s: State, s': State, step: Step)
    requires WalkStep(s, s', step)
    ensures s'.workers == s.workers
  {
  }

  lemma SchedulesStep(s: State, s': State, step: Step, t: Thread, b: Id)
    requires ScheduleStep(s, s', step) && MakesScheduled(s, s', t, b)
    ensures b in s.bhs && b in s'.bhs && s'.bhs[b].scheduled && s'.bhs[b].deleted == s.bhs[b].deleted
  {
  }

  lemma OwnerSchedulesNone(s: State, s': State, step: Step, t: Thread, b: Id)
    requires OwnerStep(s, s', step)
    ensures !MakesScheduled(s, s', t, b)
  {
  }

  lemma SameWorkers(s: State, s': State, t: Thread, b: Id)
    requires s'.workers == s.workers
    ensures !MakesScheduled(s, s', t, b)
  {
  }

  /** qemu_bh_schedule and qemu_bh_schedule_idle leave the bottom half scheduled. */
  lemma MadeScheduled(s: State, s': State, step: Step, t: Thread, b: Id)
    requires Steps(s, s', step) && MakesScheduled(s, s', t, b)
    ensures b in s.bhs && b in s'.bhs && s'.bhs[b].scheduled && s'.bhs[b].deleted == s.bhs[b].deleted
    ensures s'.poller == s.poller && s'.outer == s.outer
  {
    hide WaitStep, WalkStep, ScheduleStep, OwnerStep, MakesScheduled, Within;
    if WaitStep(s, s', step) {
      WaitFrame(s, s', step);
      SameWorkers(s, s', t, b);
    } else if WalkStep(s, s', step) {
      WalkWorkers(s, s', step);
      SameWorkers(s, s', t, b);
    } else if ScheduleStep(s, s', step) {
      ScheduleFrame(s, s', step);
      SchedulesStep(s, s', step, t, b);
    } else {
      OwnerSchedulesNone(s, s', step, t, b);
    }
  }

  /** What a thread schedules before a poll dispatches is called when the poll is over, unless it is cancelled or
      deleted meanwhile. */
  lemma ScheduledIsCalled(run: seq<State>, i: nat, j: nat, t: Thread, b: Id)
    requires IsRun(run) && i < j < |run| && MakesScheduled(run[i], run[i + 1], t, b)
    requires b in run[i].bhs && !run[i].bhs[b].deleted && BeforeDispatch(run[i].poller)
    requires run[j].poller.Outside? && |run[j].outer| <= |run[i].outer|
    ensures Settled(run, i + 1, j, b)
  {
    hide IsRun, Steps, MakesScheduled, Settled;
    var step := StepOf(run, i);
    MadeScheduled(run[i], run[i + 1], step, t, b);
    PollCallsAll(run, i + 1, j, b);
  }

  /** `b` is not scheduled, and not about to be called. */
  ghost predicate Quiet(s: State, b: Id) {
    !IsTaken(s.poller, b) && (b in s.bhs ==> !s.bhs[b].scheduled)
  }

  lemma WalkRisesNone(s: State, s': State, step: Step, b: Id)
    requires WalkStep(s, s', step) && Quiet(s, b)
    ensures Quiet(s', b)
  {
  }

  lemma ScheduleRaises(s: State, s': State, step: Step, b: Id)
    requires ScheduleStep(s, s', step) && Quiet(s, b)
    ensures Quiet(s', b) || Schedules(s, s', b)
  {
    if !Quiet(s', b) {
      assert MakesScheduled(s, s', step.t, b);
    }
  }

  lemma OwnerRisesNone(s: State, s': State, step: Step, b: Id)
    requires OwnerStep(s, s', step) && Quiet(s, b)
    ensures Quiet(s', b)
  {
  }

  lemma QuietStays(s: State, s': State, step: Step, b: Id)
    requires Steps(s, s', step) && Quiet(s, b) && !Schedules(s, s', b)
    ensures Quiet(s', b) && s.calls <= s'.calls && b !in s'.calls[|s.calls|..]
  {
    CallStep(s, s', step);
    hide WaitStep, WalkStep, ScheduleStep, OwnerStep, Within, Schedules;
    if WaitStep(s, s', step) {
      WaitFrame(s, s', step);
      WaitNotTaken(s, s', step);
    } else if WalkStep(s, s', step) {
      WalkRisesNone(s, s', step, b);
    } else if ScheduleStep(s, s', step) {
      ScheduleRaises(s, s', step, b);
    } else {
      OwnerRisesNone(s, s', step, b);
    }
  }

  /** A bottom half that is not scheduled is not called until somebody schedules it. */
  lemma {:induction false} UnscheduledIsSilent(run: seq<State>, i: nat, j: nat, b: Id)
    requires IsRun(run) && i <= j < |run| && Quiet(run[i], b)
    requires forall k: nat :: i <= k < j ==> !Schedules(run[k], run[k + 1], b)
    ensures Quiet(run[j], b) && run[i].calls <= run[j].calls && b !in run[j].calls[|run[i].calls|..]
    decreases j - i
  {
    hide IsRun, Steps, Quiet, Schedules;
    if i < j {
      UnscheduledIsSilent(run, i, j - 1, b);
      assert !Schedules(run[j - 1], run[j - 1 + 1], b);
      var step := StepOf(run, j - 1);
      QuietStays(run[j - 1], run[j], step, b);
      var n := |run[i].calls|;
      assert run[j].calls[n..] == run[j - 1].calls[n..] + run[j].calls[|run[j - 1].calls|..];
    }
  }

  /** A bottom half that is cancelled or deleted before the poller takes it is not called until it is scheduled
      again. */
  lemma CancelledIsSilent(run: seq<State>, i: nat, j: nat, t: Thread, b: Id)
    requires IsRun(run) && i < j < |run|
    requires Steps(run[i], run[i + 1], Cancel(b)) || Steps(run[i], run[i + 1], Delete(t, b))
    requires !IsTaken(run[i].poller, b)
    requires forall k: nat :: i < k < j ==> !Schedules(run[k], run[k + 1], b)
    ensures run[i].calls <= run[j].calls && b !in run[j].calls[|run[i].calls|..]
  {
    hide IsRun, Steps, Quiet, Schedules;
    if Steps(run[i], run[i + 1], Cancel(b)) {
      CancelQuiets(run[i], run[i + 1], b);
    } else {
      DeleteQuiets(run[i], run[i + 1], t, b);
    }
    UnscheduledIsSilent(run, i + 1, j, b);
  }

  lemma CancelQuiets(s: State, s': State, b: Id)
    requires Steps(s, s', Cancel(b)) && !IsTaken(s.poller, b)
    ensures Quiet(s', b) && s'.calls == s.calls
  {
  }

  lemma DeleteQuiets(s: State, s': State, t: Thread, b: Id)
    requires Steps(s, s', Delete(t, b)) && !IsTaken(s.poller, b)
    ensures Quiet(s', b) && s'.calls == s.calls
  {
  }

  // Idle bottom halves bound the wait.

  ghost predicate Bounded(p: Poller, b: Id) {
    (p.Computing? && (p.capped || b in p.todo)) || (p.Polling? && (p.capped || !p.blocked))
  }

  lemma WaitBounded(s: State, s': State, step: Step, b: Id)
    requires WaitStep(s, s', step) && Bounded(s.poller, b) && (s'.poller.Computing? || s'.poller.Polling?)
    requires b in s.bhs && s.bhs[b].scheduled && !s.bhs[b].deleted
    ensures Bounded(s'.poller, b)
  {
    if step == ComputeOne {
      assert s.poller.todo == [s.poller.todo[0]] + s.poller.todo[1..];
    }
  }

  lemma StepBounded(s: State, s': State, step: Step, b: Id)
    requires Steps(s, s', step) && Bounded(s.poller, b) && (s'.poller.Computing? || s'.poller.Polling?)
    requires b in s.bhs && s.bhs[b].scheduled && !s.bhs[b].deleted
    ensures Bounded(s'.poller, b)
  {
    hide WaitStep, ScheduleStep, OwnerStep, Bounded;
    if WaitStep(s, s', step) {
      WaitBounded(s, s', step, b);
    } else if ScheduleStep(s, s', step) {
      ScheduleFrame(s, s', step);
    } else if OwnerStep(s, s', step) {
      OwnerFrame(s, s', step);
    }
  }

  /** A poll does not wait longer than 10 ms if, all the time from when it computes its timeout, some bottom half is
      scheduled that was listed then, idle or not. */
  lemma {:induction false} ScheduledBoundsWait(run: seq<State>, i: nat, j: nat, b: Id)
    requires IsRun(run) && i <= j < |run| && run[i].poller.Computing? && b in run[i].poller.todo
    requires forall k: nat :: i <= k <= j ==> run[k].poller.Computing? || run[k].poller.Polling?
    requires forall k: nat :: i <= k <= j ==> b in run[k].bhs && run[k].bhs[b].scheduled && !run[k].bhs[b].deleted
    ensures Bounded(run[j].poller, b)
    ensures run[j].poller.Polling? && run[j].poller.blocked ==> run[j].poller.capped
    decreases j - i
  {
    hide IsRun, Steps;
    if i < j {
      ScheduledBoundsWait(run, i, j - 1, b);
      var step := StepOf(run, j - 1);
      StepBounded(run[j - 1], run[j], step, b);
    }
  }

  /** A callback is entered with `idle` cleared. */
  lemma CallClearsIdle(s: State, s': State, step: Step, b: Id)
    requires WalkStep(s, s', step) && IsTaken(s.poller, b)
    ensures b in s'.bhs && !s'.bhs[b].idle && s'.calls == s.calls + [b]
  {
  }

  // Deletion.

  lemma DeletedStays(s: State, s': State, step: Step, b: Id)
    requires Steps(s, s', step) && b in s.bhs && s.bhs[b].deleted && b in s'.bhs
    ensures s'.bhs[b].deleted
  {
    hide WaitStep, WalkStep, ScheduleStep, OwnerStep, Within;
    if WaitStep(s, s', step) {
      WaitFrame(s, s', step);
    } else if WalkStep(s, s', step) {
      WalkDeleted(s, s', step, b);
    } else if ScheduleStep(s, s', step) {
      ScheduleKeeps(s, s', step, b);
    } else {
      OwnerDeleted(s, s', step, b);
    }
  }

  lemma WalkDeleted(s: State, s': State, step: Step, b: Id)
    requires WalkStep(s, s', step) && b in s.bhs && b in s'.bhs
    ensures s'.bhs[b].deleted == s.bhs[b].deleted
  {
  }

  lemma OwnerDeleted(s: State, s': State, step: Step, b: Id)
    requires OwnerStep(s, s', step) && b in s.bhs && s.bhs[b].deleted
    ensures b in s'.bhs && s'.bhs[b].deleted
  {
  }

  lemma MarkDeletes(s: State, s': State, t: Thread, b: Id)
    requires At(s, t, Deleting(b)) && Steps(s, s', MarkDeleted(t))
    ensures b in s'.bhs && s'.bhs[b].deleted
  {
  }

  lemma {:induction false} DeletedUntilFreed(run: seq<State>, i: nat, j: nat, b: Id)
    requires IsRun(run) && i <= j < |run| && b in run[i].bhs && run[i].bhs[b].deleted
    requires forall k: nat :: i <= k <= j ==> b in run[k].bhs
    ensures run[j].bhs[b].deleted
    decreases j - i
  {
    hide IsRun, Steps;
    if i < j {
      DeletedUntilFreed(run, i, j - 1, b);
      assert b in run[j].bhs;
      var step := StepOf(run, j - 1);
      DeletedStays(run[j - 1], run[j], step, b);
    }
  }

  /** A bottom half that qemu_bh_delete is done with is freed when the outermost dispatch ends, if not before. */
  lemma DeletedIsFreed(run: seq<State>, i: nat, j: nat, t: Thread, b: Id)
    requires IsRun(run) && i < j && j + 1 < |run| && At(run[i], t, Deleting(b))
    requires Steps(run[i], run[i + 1], MarkDeleted(t)) && Ends(run[j], run[j + 1])
    ensures exists k: nat :: i < k <= j + 1 && b !in run[k].bhs
  {
    hide IsRun, Steps, Ends;
    MarkDeletes(run[i], run[i + 1], t, b);
    if forall k: nat :: i < k <= j ==> b in run[k].bhs {
      DeletedUntilFreed(run, i + 1, j, b);
      FreedExactly(run, j, b);
      assert b !in run[j + 1].bhs;
    }
  }

  // The event is consumed.

  /** A set event is on its way out: aio_notify_accept is going to see `notified`, now or when the thread that set the
      event is done, or is about to clear the event. */
  ghost predicate Consumable(s: State) {
    s.event ==> s.notified || s.poller.Clearing? || exists t :: At(s, t, SettingNotified)
  }

  lemma WaitConsumable(s: State, s': State, step: Step)
    requires WaitStep(s, s', step) && Consumable(s)
    ensures Consumable(s')
  {
    WaitFrame(s, s', step);
    if !(s.event ==> s.notified || s.poller.Clearing?) {
      var t :| At(s, t, SettingNotified);
      assert At(s', t, SettingNotified);
    }
  }

  lemma WalkKeepsEvent(s: State, s': State, step: Step)
    requires WalkStep(s, s', step)
    ensures s'.event == s.event && s'.notified == s.notified && !s.poller.Clearing?
  {
  }

  lemma ConsumableSame(s: State, s': State)
    requires Consumable(s) && s'.event == s.event && s'.notified == s.notified && s'.workers == s.workers
    requires s.poller.Clearing? ==> s'.poller.Clearing?
    ensures Consumable(s')
  {
    if !(s.event ==> s.notified || s.poller.Clearing?) {
      var t :| At(s, t, SettingNotified);
      assert At(s', t, SettingNotified);
    }
  }

  lemma ScheduleConsumable(s: State, s': State, step: Step)
    requires ScheduleStep(s, s', step) && Consumable(s)
    ensures Consumable(s')
  {
    ScheduleFrame(s, s', step);
    if step.SetEvent? {
      assert At(s', step.t, SettingNotified);
    } else if s'.event && !s'.notified && !s'.poller.Clearing? {
      var t :| At(s, t, SettingNotified);
      assert At(s', t, SettingNotified);
    }
  }

  lemma OwnerConsumable(s: State, s': State, step: Step)
    requires OwnerStep(s, s', step) && Consumable(s)
    ensures Consumable(s')
  {
    OwnerFrame(s, s', step);
    if s'.event && !s'.notified && !s'.poller.Clearing? {
      var t :| At(s, t, SettingNotified);
      assert At(s', t, SettingNotified);
    }
  }

  /** The event never stays set for nothing: once no thread is notifying, the next aio_notify_accept clears it. */
  lemma {:induction false} EventIsConsumed(run: seq<State>, i: nat)
    requires IsRun(run) && i < |run|
    ensures Consumable(run[i])
  {
    if i > 0 {
      EventIsConsumed(run, i - 1);
      hide IsRun, WaitStep, WalkStep, ScheduleStep, OwnerStep, Consumable;
      var step := StepOf(run, i - 1);
      var s, s' := run[i - 1], run[i];
      if WaitStep(s, s', step) {
        WaitConsumable(s, s', step);
      } else if WalkStep(s, s', step) {
        WalkKeepsEvent(s, s', step);
        WalkWorkers(s, s', step);
        ConsumableSame(s, s');
      } else if ScheduleStep(s, s', step) {
        ScheduleConsumable(s, s', step);
      } else {
        OwnerConsumable(s, s', step);
      }
    }
  }

  // The loop works.

  /** One bottom half, one thread, and aio_poll. */
  function Stage(b: Id, scheduled: bool, notifyMe: int, notified: bool, event: bool, p: Poller, w: Worker,
                 calls: seq<Id>): State {
    State(map[b := Flags(scheduled, false, Normal)], [b], notifyMe, notified, event, p, [], map[0 := w], calls)
  }

  /** A run in which a poller blocks, a thread schedules a bottom half and wakes it, and the bottom half is called. */
  lemma WokenAndCalled(b: Id) returns (run: seq<State>)
    ensures IsRun(run) && run[|run| - 1] == Stage(b, false, 0, false, false, Outside, Ready, [b])
  {
    run := Accepted(b);
    hide IsRun, WaitStep, ScheduleStep, OwnerStep;
    var p := Dispatching([b], Looking(AtScheduled));
    run := RunThen(run, Stage(b, true, 0, false, false, p, Ready, []), DispatchOne);
    assert [b][1..] == [];
    run := RunThen(run, Stage(b, false, 0, false, false, Dispatching([], Taken(b)), Ready, []), DispatchOne);
    run := CalledAndDone(run, b);
  }

  lemma CalledAndDone(run: seq<State>, b: Id) returns (run': seq<State>)
    requires IsRun(run)
    requires run[|run| - 1] == Stage(b, false, 0, false, false, Dispatching([], Taken(b)), Ready, [])
    ensures IsRun(run') && run'[|run'| - 1] == Stage(b, false, 0, false, false, Outside, Ready, [b])
  {
    hide IsRun, WaitStep, ScheduleStep, OwnerStep, Dispatched;
    run' := RunThen(run, Stage(b, false, 0, false, false, Dispatching([], Calling), Ready, [b]), ClearIdle);
    run' := RunThen(run', Stage(b, false, 0, false, false, Dispatch([]), Ready, [b]), Return);
    assert Kept(map[b := Flags(false, false, Normal)], [b]) == [b];
    run' := RunThen(run', Stage(b, false, 0, false, false, Outside, Ready, [b]), EndDispatch);
  }

  lemma Accepted(b: Id) returns (run: seq<State>)
    ensures IsRun(run) && run[|run| - 1] == Stage(b, true, 0, false, false, Dispatch([b]), Ready, [])
  {
    run := Woken(b);
    hide IsRun, WalkStep, ScheduleStep, OwnerStep;
    run := RunThen(run, Stage(b, true, 0, true, true, Lowered(Aio(true)), Ready, []), LeavePoll);
    run := RunThen(run, Stage(b, true, 0, false, true, Clearing(Aio(true)), Ready, []), AcceptOne);
    run := RunThen(run, Stage(b, true, 0, false, false, Dispatch([b]), Ready, []), ClearEvent);
  }

  lemma ScheduledWhileBlocked(b: Id) returns (run: seq<State>)
    ensures IsRun(run) && run[|run| - 1]
                       == Stage(b, true, 2, false, false, Polling(Aio(true), false, true), Notifying(b), [])
  {
    var p := Polling(Aio(true), false, true);
    hide IsRun, WaitStep, WalkStep, OwnerStep;
    run := Created(b);
    run := Blocks(run, b, Flags(false, false, Normal), Ready);
    run := RunThen(run, Stage(b, false, 2, false, false, p, Scheduling(b), []), Schedule(0, b));
    run := RunThen(run, Stage(b, true, 2, false, false, p, Notifying(b), []), Exchange(0));
  }

  lemma Woken(b: Id) returns (run: seq<State>)
    ensures IsRun(run) && run[|run| - 1]
                       == Stage(b, true, 2, true, true, Polling(Aio(true), false, true), Ready, [])
  {
    var p := Polling(Aio(true), false, true);
    run := ScheduledWhileBlocked(b);
    hide IsRun, WaitStep, WalkStep, OwnerStep;
    run := RunThen(run, Stage(b, true, 2, false, false, p, SettingEvent(b), []), ReadNotifyMe(0));
    run := RunThen(run, Stage(b, true, 2, false, true, p, SettingNotified, []), SetEvent(0));
    run := RunThen(run, Stage(b, true, 2, true, true, p, Ready, []), SetNotified(0));
  }
}
