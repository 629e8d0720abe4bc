/** The wake-up protocol of the event loop (qemu/async.c, qemu/aio-posix.c): one poller, any number
    of threads that schedule bottom halves. Every access to a field of a bottom half, to notify_me,
    to notified or to the event is one step, and steps interleave freely. Creating a bottom half and
    freeing the deleted ones, which both happen under the lock of the list, are one step each. What
    is left of a walk is fixed when it begins, since new bottom halves go in front of the list and
    none is freed during a walk. */
module EventLoop {
  type Id = nat
  type Thread = nat

  /** How a bottom half last went from unscheduled to scheduled: by qemu_bh_schedule, by
      qemu_bh_schedule while a store of qemu_bh_schedule_idle to `idle` stood or came later, or by
      qemu_bh_schedule_idle. */
  datatype Origin = Normal | Mixed | Idle

  datatype BottomHalf = BottomHalf(scheduled: bool, idle: bool, deleted: bool, origin: Origin)

  /** How the poller waits: aio_poll, blocking or not, or the GSource callbacks. */
  datatype Mode = Aio(blocking: bool) | Source

  /** Which field of the first bottom half of a walk is read next. */
  datatype Look = AtDeleted | AtScheduled | AtIdle

  /** Where aio_bh_poll is with a bottom half: at its flags, about to clear `idle`, in the callback. */
  datatype Phase = Looking(look: Look) | Taken(bh: Id) | Calling

  datatype Poller =
    | Outside
    /** notify_me is raised if this kind of waiting raises it. */
    | Raised(mode: Mode)
    /** aio_compute_timeout, with the bottom halves still to be looked at; `capped` if an idle one was seen. */
    | Computing(mode: Mode, capped: bool, todo: seq<Id>, look: Look)
    /** In the poll system call; `blocked` if its timeout is not zero, `capped` if it is at most 10 ms
        because of an idle bottom half. */
    | Polling(mode: Mode, capped: bool, blocked: bool)
    /** notify_me is lowered; aio_notify_accept comes next. */
    | Lowered(mode: Mode)
    /** aio_notify_accept found `notified` set and is about to clear the event. */
    | Clearing(mode: Mode)
    /** aio_ctx_check, with the bottom halves still to be looked at. */
    | Checking(todo: seq<Id>, look: Look)
    /** aio_bh_poll, with the bottom halves still to be looked at. */
    | Dispatching(todo: seq<Id>, phase: Phase)

  /** Where a thread is in qemu_bh_schedule, qemu_bh_schedule_idle or qemu_bh_delete. */
  datatype Worker =
    | Ready
    | Scheduling(bh: Id)
    | Notifying(bh: Id)
    | SettingEvent(bh: Id)
    | SettingNotified
    | SchedulingIdle(bh: Id)
    | Deleting(bh: Id)

  datatype State = State(
    bhs: map<Id, BottomHalf>,
    list: seq<Id>,
    notifyMe: int,
    notified: bool,
    event: bool,
    poller: Poller,
    /** Walks of aio_bh_poll whose callback runs a nested poll. */
    outer: seq<seq<Id>>,
    workers: map<Thread, Worker>,
    /** The bottom halves whose callbacks were entered, in that order. */
    calls: seq<Id>)

  ghost predicate Init(s: State) {
    && s.bhs == map[] && s.list == [] && s.notifyMe == 0 && !s.notified && !s.event
    && s.poller == Outside && s.outer == [] && s.calls == []
    && forall t :: t in s.workers ==> s.workers[t] == Ready
  }

  datatype Step =
    | EnterPoll(mode: Mode) | BeginCompute | EndCompute | LeavePoll | SkipCheck | AcceptOne | ClearEvent
    | ComputeOne | CheckOne | EndCheck(dispatch: bool)
    | DispatchOne | ClearIdle | Return | NestPoll | EndDispatch
    | NewBh(bh: Id) | Schedule(t: Thread, bh: Id) | Exchange(t: Thread) | ReadNotifyMe(t: Thread)
    | SetEvent(t: Thread) | SetNotified(t: Thread) | ScheduleIdle(t: Thread, bh: Id) | MarkIdle(t: Thread)
    | Cancel(bh: Id) | Delete(t: Thread, bh: Id) | MarkDeleted(t: Thread)

  /** atomic_or(&notify_me, 1), atomic_add(&notify_me, 2) */
  function Raise(n: int, mode: Mode): int {
    match mode
    case Source => if n % 2 == 0 then n + 1 else n
    case Aio(blocking) => if blocking then n + 2 else n
  }

  /** atomic_and(&notify_me, ~1), atomic_sub(&notify_me, 2) */
  function Lower(n: int, mode: Mode): int {
    match mode
    case Source => if n % 2 == 1 then n - 1 else n
    case Aio(blocking) => if blocking then n - 2 else n
  }

  ghost predicate Live(s: State, b: Id) { b in s.bhs && b in s.list }

  ghost predicate At(s: State, t: Thread, w: Worker) { t in s.workers && s.workers[t] == w }

  /** The thread has yet to access the bottom half itself. */
  predicate Uses(w: Worker, b: Id) {
    (w.Scheduling? || w.SchedulingIdle? || w.Deleting?) && w.bh == b
  }

  function With(s: State, t: Thread, w: Worker): State { s.(workers := s.workers[t := w]) }

  function WithBh(s: State, b: Id, bh: BottomHalf): State { s.(bhs := s.bhs[b := bh]) }

  /** What follows aio_notify_accept: aio_ctx_check of the GSource, or dispatch. */
  function AfterAccept(s: State, mode: Mode): Poller {
    if mode.Source? then Checking(s.list, AtDeleted) else Dispatch(s.list)
  }

  function Dispatch(todo: seq<Id>): Poller { Dispatching(todo, Looking(AtDeleted)) }

  /** Bottom halves that are not deleted stay; the others are freed. */
  function Reaped(s: State): State {
    s.(bhs := map b | b in s.bhs && !s.bhs[b].deleted :: s.bhs[b], list := Kept(s.bhs, s.list))
  }

  function Kept(bhs: map<Id, BottomHalf>, list: seq<Id>): seq<Id> {
    if list == [] then []
    else if list[0] in bhs && bhs[list[0]].deleted then Kept(bhs, list[1..])
    else [list[0]] + Kept(bhs, list[1..])
  }

  /** The next read of aio_compute_timeout. */
  function Computed(p: Poller, bh: BottomHalf): Poller
    requires p.Computing? && p.todo != []
  {
    match p.look
    case AtDeleted => Computing(p.mode, p.capped, if bh.deleted then p.todo[1..] else p.todo,
                                if bh.deleted then AtDeleted else AtScheduled)
    case AtScheduled => Computing(p.mode, p.capped, if bh.scheduled then p.todo else p.todo[1..],
                                  if bh.scheduled then AtIdle else AtDeleted)
    case AtIdle => if bh.idle then Computing(p.mode, true, p.todo[1..], AtDeleted) else Polling(p.mode, p.capped, false)
  }

  /** The next read of aio_ctx_check. */
  function Checked(p: Poller, bh: BottomHalf, list: seq<Id>): Poller
    requires p.Checking? && p.todo != []
  {
    var next := Checking(p.todo[1..], AtDeleted);
    if p.look == AtDeleted then (if bh.deleted then next else Checking(p.todo, AtScheduled))
    else if bh.scheduled then Dispatch(list) else next
  }

  /** The next read of aio_bh_poll: of `deleted`, then the exchange of `scheduled`. */
  function Dispatched(s: State): State
    requires s.poller.Dispatching? && s.poller.phase.Looking? && s.poller.todo != [] && s.poller.todo[0] in s.bhs
  {
    var b, rest := s.poller.todo[0], s.poller.todo[1..];
    var bh := s.bhs[b];
    if s.poller.phase.look == AtDeleted then
      s.(poller := if bh.deleted then Dispatch(rest) else Dispatching(s.poller.todo, Looking(AtScheduled)))
    else if bh.scheduled then WithBh(s, b, bh.(scheduled := false)).(poller := Dispatching(rest, Taken(b)))
    else s.(poller := Dispatch(rest))
  }

  /** The poller's way into the poll system call and out of it. */
  ghost predicate WaitStep(s: State, s': State, step: Step) {
    match step
    case EnterPoll(mode) =>
      s.poller.Outside? && s' == s.(poller := Raised(mode), notifyMe := Raise(s.notifyMe, mode))
    case BeginCompute =>
      s.poller.Raised? && s' == s.(poller := if s.poller.mode == Aio(false) then Polling(Aio(false), false, false)
                                             else Computing(s.poller.mode, false, s.list, AtDeleted))
    case ComputeOne =>
      && s.poller.Computing? && s.poller.todo != [] && s.poller.todo[0] in s.bhs
      && s' == s.(poller := Computed(s.poller, s.bhs[s.poller.todo[0]]))
    case EndCompute =>
      // the timers may still make the timeout zero
      && s.poller.Computing? && s.poller.todo == [] && s'.poller.Polling?
      && s' == s.(poller := Polling(s.poller.mode, s.poller.capped, s'.poller.blocked))
    case LeavePoll =>
      // the event, a file descriptor or the timeout ends the system call
      && s.poller.Polling?
      && s' == s.(poller := Lowered(s.poller.mode), notifyMe := Lower(s.notifyMe, s.poller.mode))
    case SkipCheck =>
      // a GSource whose prepare callback reported a zero timeout is dispatched without its check
      s.poller.Polling? && s.poller.mode == Source && !s.poller.blocked && s' == s.(poller := Dispatch(s.list))
    case AcceptOne =>
      && s.poller.Lowered?
      && s' == if s.notified then s.(poller := Clearing(s.poller.mode), notified := false)
               else s.(poller := AfterAccept(s, s.poller.mode))
    case ClearEvent =>
      s.poller.Clearing? && s' == s.(poller := AfterAccept(s, s.poller.mode), event := false)
    case _ => false
  }

  /** The poller's walks after the system call. */
  ghost predicate WalkStep(s: State, s': State, step: Step) {
    match step
    case CheckOne =>
      && s.poller.Checking? && s.poller.todo != [] && s.poller.todo[0] in s.bhs
      && s' == s.(poller := Checked(s.poller, s.bhs[s.poller.todo[0]], s.list))
    case EndCheck(dispatch) =>
      s.poller.Checking? && s.poller.todo == [] && s' == s.(poller := if dispatch then Dispatch(s.list) else Outside)
    case DispatchOne =>
      && s.poller.Dispatching? && s.poller.phase.Looking? && s.poller.todo != [] && s.poller.todo[0] in s.bhs
      && s' == Dispatched(s)
    case ClearIdle =>
      && s.poller.Dispatching? && s.poller.phase.Taken? && s.poller.phase.bh in s.bhs
      && var b := s.poller.phase.bh;
         s' == WithBh(s, b, s.bhs[b].(idle := false)).(poller := Dispatching(s.poller.todo, Calling),
                                                       calls := s.calls + [b])
    case Return =>
      s.poller.Dispatching? && s.poller.phase.Calling? && s' == s.(poller := Dispatch(s.poller.todo))
    case NestPoll =>
      // the callback calls aio_poll
      && s.poller.Dispatching? && s.poller.phase.Calling?
      && s' == s.(poller := Outside, outer := [s.poller.todo] + s.outer)
    case EndDispatch =>
      && s.poller.Dispatching? && s.poller.todo == [] && s.poller.phase == Looking(AtDeleted)
      && s' == if s.outer == [] then Reaped(s).(poller := Outside)
               else s.(poller := Dispatching(s.outer[0], Calling), outer := s.outer[1..])
    case _ => false
  }

  /** The steps of the threads that schedule bottom halves. */
  ghost predicate ScheduleStep(s: State, s': State, step: Step) {
    match step
    case Schedule(t, b) =>
      At(s, t, Ready) && Live(s, b) && s' == With(WithBh(s, b, s.bhs[b].(idle := false)), t, Scheduling(b))
    case Exchange(t) =>
      && t in s.workers && s.workers[t].Scheduling? && Live(s, s.workers[t].bh)
      && var b := s.workers[t].bh; var bh := s.bhs[b];
         s' == if bh.scheduled then With(s, t, Ready)
               else With(WithBh(s, b, bh.(scheduled := true, origin := if bh.idle then Mixed else Normal)), t,
                         Notifying(b))
    case ReadNotifyMe(t) =>
      && t in s.workers && s.workers[t].Notifying?
      && s' == With(s, t, if s.notifyMe != 0 then SettingEvent(s.workers[t].bh) else Ready)
    case SetEvent(t) =>
      t in s.workers && s.workers[t].SettingEvent? && s' == With(s, t, SettingNotified).(event := true)
    case SetNotified(t) =>
      At(s, t, SettingNotified) && s' == With(s, t, Ready).(notified := true)
    case ScheduleIdle(t, b) =>
      && At(s, t, Ready) && Live(s, b)
      && var bh := s.bhs[b];
         s' == With(WithBh(s, b, bh.(idle := true, origin := if bh.origin == Normal then Mixed else bh.origin)),
                    t, SchedulingIdle(b))
    case MarkIdle(t) =>
      && t in s.workers && s.workers[t].SchedulingIdle? && Live(s, s.workers[t].bh)
      && var b := s.workers[t].bh; var bh := s.bhs[b];
         s' == With(if bh.scheduled then s else WithBh(s, b, bh.(scheduled := true, origin := Idle)), t, Ready)
    case _ => false
  }

  /** The steps of the threads that create, cancel and delete bottom halves. */
  ghost predicate OwnerStep(s: State, s': State, step: Step) {
    match step
    case NewBh(b) =>
      // the allocator does not hand out memory that a thread is still working on
      && b !in s.bhs && b !in s.list && (forall t :: t in s.workers ==> !Uses(s.workers[t], b))
      && s' == s.(bhs := s.bhs[b := BottomHalf(false, false, false, Normal)], list := [b] + s.list)
    case Cancel(b) =>
      Live(s, b) && s' == WithBh(s, b, s.bhs[b].(scheduled := false))
    case Delete(t, b) =>
      At(s, t, Ready) && Live(s, b) && s' == With(WithBh(s, b, s.bhs[b].(scheduled := false)), t, Deleting(b))
    case MarkDeleted(t) =>
      && t in s.workers && s.workers[t].Deleting? && Live(s, s.workers[t].bh)
      && var b := s.workers[t].bh; s' == With(WithBh(s, b, s.bhs[b].(deleted := true)), t, Ready)
    case _ => false
  }

  ghost predicate Steps(s: State, s': State, step: Step) {
    WaitStep(s, s', step) || WalkStep(s, s', step) || ScheduleStep(s, s', step) || OwnerStep(s, s', step)
  }

  ghost predicate Next(s: State, s': State) {
    exists step :: Steps(s, s', step)
  }

  ghost predicate IsRun(run: seq<State>) {
    run != [] && Init(run[0]) && forall i :: 0 <= i < |run| - 1 ==> Next(run[i], run[i + 1])
  }

  /** The poller's timeout is, or is going to be, capped by an idle bottom half. */
  predicate Capped(p: Poller) { (p.Computing? || p.Polling?) && p.capped }

  /** What qemu_bh_schedule promises: always if it made the bottom half scheduled and `idle` has not been
      set since, and also if it was, as long as no idle bottom half capped the timeout. */
  predicate Prompt(origin: Origin, capped: bool) {
    origin == Normal || (origin == Mixed && !capped)
  }

  /** A bottom half that should run without delay. */
  ghost predicate Urgent(s: State, b: Id) {
    b in s.bhs && s.bhs[b].scheduled && !s.bhs[b].deleted && Prompt(s.bhs[b].origin, Capped(s.poller))
  }

  /** The event is set, or the thread that scheduled `b` has yet to set it. */
  ghost predicate Announced(s: State, b: Id) {
    s.event || exists t :: t in s.workers && (s.workers[t] == Notifying(b) || s.workers[t] == SettingEvent(b))
  }

  /** The poller has decided, as far as `b` is concerned, to block. */
  ghost predicate PassedBy(p: Poller, b: Id) {
    (p.Computing? && b !in p.todo) || (p.Polling? && p.blocked)
  }

  ghost predicate MayBlock(p: Poller) { p.Raised? || p.Computing? || p.Polling? }

  /** notify_me is raised while the poller may block. */
  ghost predicate Flagged(n: int, p: Poller) {
    && 0 <= n && n / 2 == (if MayBlock(p) && p.mode == Aio(true) then 1 else 0)
    && (MayBlock(p) && p.mode == Source ==> n % 2 == 1)
    && (p.Computing? || (p.Polling? && p.blocked) ==> p.mode != Aio(false))
  }

  /** Every bottom half of a walk, and only listed ones, is allocated. */
  ghost predicate Allocated(s: State) {
    && (forall b :: b in s.bhs <==> b in s.list)
    && AllIn(Todo(s.poller), s.bhs)
    && (forall i :: 0 <= i < |s.outer| ==> AllIn(s.outer[i], s.bhs))
  }

  /** The bottom halves that the poller's current walk still goes to. */
  function Todo(p: Poller): seq<Id> {
    if p.Computing? || p.Checking? then p.todo
    else if p.Dispatching? then (if p.phase.Taken? then [p.phase.bh] + p.todo else p.todo)
    else []
  }

  ghost predicate AllIn(todo: seq<Id>, bhs: map<Id, BottomHalf>) {
    forall b :: b in todo ==> b in bhs
  }

  ghost predicate IdleKnown(bhs: map<Id, BottomHalf>) {
    forall b :: b in bhs && bhs[b].idle ==> bhs[b].origin != Normal
  }

  ghost predicate Awake(s: State) {
    forall b :: Urgent(s, b) && PassedBy(s.poller, b) ==> Announced(s, b)
  }

  ghost predicate Inv(s: State) {
    Flagged(s.notifyMe, s.poller) && Allocated(s) && IdleKnown(s.bhs) && Awake(s)
  }

  // Walks stay allocated.

  lemma {:induction false} KeptIs(bhs: map<Id, BottomHalf>, list: seq<Id>, b: Id)
    ensures b in Kept(bhs, list) <==> b in list && !(b in bhs && bhs[b].deleted)
  {
    if list != [] {
      KeptIs(bhs, list[1..], b);
      assert list == [list[0]] + list[1..];
    }
  }

  lemma ReapedAllocated(s: State)
    requires Allocated(s) && s.outer == []
    ensures Allocated(Reaped(s).(poller := Outside))
  {
    forall b
      ensures b in Reaped(s).bhs <==> b in Reaped(s).list
    {
      KeptIs(s.bhs, s.list, b);
    }
  }

  ghost predicate Within(todo: seq<Id>, s: State) {
    forall b :: b in todo ==> b in s.list || b in Todo(s.poller)
  }

  /** A walk that goes to listed bottom halves, or to those of the walk before, is allocated. */
  lemma AllocatedStill(s: State, s': State)
    requires Allocated(s) && s.bhs.Keys <= s'.bhs.Keys && Within(Todo(s'.poller), s) && s'.outer == s.outer
    requires forall b :: b in s'.bhs <==> b in s'.list
    ensures Allocated(s')
  {
    hide Todo;
    assert forall b :: b in s.bhs ==> b in s.bhs.Keys;
    assert forall b :: b in s'.bhs.Keys ==> b in s'.bhs;
  }

  lemma WaitFrame(s: State, s': State, step: Step)
    requires WaitStep(s, s', step)
    ensures s'.bhs == s.bhs && s'.list == s.list && s'.outer == s.outer && s'.workers == s.workers
    ensures s'.calls == s.calls && Within(Todo(s'.poller), s)
  {
    assert s.poller.Computing? && s.poller.todo != [] ==> forall b :: b in s.poller.todo[1..] ==> b in s.poller.todo;
  }

  lemma WaitAllocated(s: State, s': State, step: Step)
    requires Allocated(s) && WaitStep(s, s', step)
    ensures Allocated(s')
  {
    hide WaitStep, Within;
    WaitFrame(s, s', step);
    AllocatedStill(s, s');
  }

  /** The steps of a walk that stay in it, or go on to the next. */
  lemma WalkFrame(s: State, s': State, step: Step)
    requires WalkStep(s, s', step) && step != NestPoll && step != EndDispatch
    ensures s'.bhs.Keys == s.bhs.Keys && s'.list == s.list && s'.outer == s.outer && Within(Todo(s'.poller), s)
  {
    if s.poller.Checking? {
      CheckFrame(s, s', step);
    } else if step == DispatchOne {
      DispatchFrame(s);
    }
  }

  lemma CheckFrame(s: State, s': State, step: Step)
    requires WalkStep(s, s', step) && s.poller.Checking?
    ensures s'.bhs == s.bhs && s'.list == s.list && s'.outer == s.outer && Within(Todo(s'.poller), s)
  {
    assert s.poller.todo != [] ==> forall b :: b in s.poller.todo[1..] ==> b in s.poller.todo;
  }

  lemma DispatchFrame(s: State)
    requires s.poller.Dispatching? && s.poller.phase.Looking? && s.poller.todo != [] && s.poller.todo[0] in s.bhs
    ensures var s' := Dispatched(s);
            s'.bhs.Keys == s.bhs.Keys && s'.list == s.list && s'.outer == s.outer && Within(Todo(s'.poller), s)
  {
    DispatchWithin(s);
    hide Within, Todo;
  }

  lemma DispatchWithin(s: State)
    requires s.poller.Dispatching? && s.poller.phase.Looking? && s.poller.todo != [] && s.poller.todo[0] in s.bhs
    ensures Within(Todo(Dispatched(s).poller), s)
  {
    hide WithBh;
    assert forall b :: b in s.poller.todo[1..] ==> b in s.poller.todo;
  }

  lemma WalkAllocated(s: State, s': State, step: Step)
    requires Allocated(s) && WalkStep(s, s', step)
    ensures Allocated(s')
  {
    if step == NestPoll {
      forall i | 0 <= i < |s'.outer| ensures AllIn(s'.outer[i], s'.bhs) {
        assert s'.outer[i] == if i == 0 then Todo(s.poller) else s.outer[i - 1];
      }
    } else if step == EndDispatch {
      if s.outer == [] {
        ReapedAllocated(s);
      } else {
        assert Todo(s'.poller) == s.outer[0];
      }
    } else {
      hide WalkStep, Within;
      WalkFrame(s, s', step);
      SameKeys(s, s');
      AllocatedStill(s, s');
    }
  }

  lemma SameKeys(s: State, s': State)
    requires Allocated(s) && s'.bhs.Keys == s.bhs.Keys && s'.list == s.list
    ensures forall b :: b in s'.bhs <==> b in s'.list
  {
    forall b
      ensures b in s'.bhs <==> b in s'.list
    {
      assert b in s'.bhs <==> b in s'.bhs.Keys;
      assert b in s.bhs <==> b in s.bhs.Keys;
    }
  }

  /** What the other threads leave to the poller. */
  lemma ScheduleFrame(s: State, s': State, step: Step)
    requires ScheduleStep(s, s', step)
    ensures s'.poller == s.poller && s'.outer == s.outer && s'.notifyMe == s.notifyMe && s'.calls == s.calls
    ensures s'.bhs.Keys == s.bhs.Keys && s'.list == s.list
  {
  }

  lemma OwnerFrame(s: State, s': State, step: Step)
    requires OwnerStep(s, s', step)
    ensures s'.poller == s.poller && s'.outer == s.outer && s'.notifyMe == s.notifyMe && s'.event == s.event
    ensures s'.calls == s.calls
    ensures s'.bhs.Keys == s.bhs.Keys + (if step.NewBh? then {step.bh} else {})
    ensures s'.list == (if step.NewBh? then [step.bh] else []) + s.list
  {
  }

  lemma ScheduleAllocated(s: State, s': State, step: Step)
    requires Allocated(s) && ScheduleStep(s, s', step)
    ensures Allocated(s')
  {
    hide ScheduleStep;
    ScheduleFrame(s, s', step);
    SameKeys(s, s');
    AllocatedStill(s, s');
  }

  lemma OwnerAllocated(s: State, s': State, step: Step)
    requires Allocated(s) && OwnerStep(s, s', step)
    ensures Allocated(s')
  {
    hide OwnerStep;
    OwnerFrame(s, s', step);
    forall b
      ensures b in s'.bhs <==> b in s'.list
    {
      assert b in s'.bhs <==> b in s'.bhs.Keys;
      assert b in s.bhs <==> b in s.bhs.Keys;
    }
    AllocatedStill(s, s');
  }

  // notify_me stays raised while the poller may block.

  lemma WaitFlagged(s: State, s': State, step: Step)
    requires Flagged(s.notifyMe, s.poller) && WaitStep(s, s', step)
    ensures Flagged(s'.notifyMe, s'.poller)
  {
  }

  lemma WalkFlagged(s: State, s': State, step: Step)
    requires Flagged(s.notifyMe, s.poller) && WalkStep(s, s', step)
    ensures Flagged(s'.notifyMe, s'.poller)
  {
  }

  // An idle bottom half is known as such.

  lemma WalkIdleKnown(s: State, s': State, step: Step)
    requires IdleKnown(s.bhs) && WalkStep(s, s', step)
    ensures IdleKnown(s'.bhs)
  {
  }

  lemma ScheduleIdleKnown(s: State, s': State, step: Step)
    requires IdleKnown(s.bhs) && ScheduleStep(s, s', step)
    ensures IdleKnown(s'.bhs)
  {
  }

  lemma OwnerIdleKnown(s: State, s': State, step: Step)
    requires IdleKnown(s.bhs) && OwnerStep(s, s', step)
    ensures IdleKnown(s'.bhs)
  {
  }

  // Whoever was passed by is announced.

  lemma AnnouncedSame(s: State, s': State, b: Id)
    requires Announced(s, b) && s'.workers == s.workers && s'.event == s.event
    ensures Announced(s', b)
  {
  }

  /** Announcements survive the steps of other threads. */
  lemma AnnouncedKept(s: State, s': State, t: Thread, w: Worker, b: Id)
    requires Announced(s, b) && t in s.workers && s'.workers == s.workers[t := w]
    requires s.event ==> s'.event
    requires s.workers[t] == Notifying(b) || s.workers[t] == SettingEvent(b) ==> w == SettingEvent(b) || s'.event
    ensures Announced(s', b)
  {
    if !s'.event {
      var t0 :| t0 in s.workers && (s.workers[t0] == Notifying(b) || s.workers[t0] == SettingEvent(b));
      assert s'.workers[t0] == if t0 == t then w else s.workers[t0];
    }
  }

  /** Only the computation of the timeout passes a bottom half by, and only one that need not be announced. */
  lemma WaitPasses(s: State, s': State, step: Step, b: Id)
    requires Allocated(s) && IdleKnown(s.bhs) && WaitStep(s, s', step) && Urgent(s', b) && PassedBy(s'.poller, b)
    ensures Urgent(s, b) && PassedBy(s.poller, b) && s'.event == s.event
  {
    assert step == BeginCompute || step == ComputeOne || step == EndCompute;
    if step == ComputeOne {
      ComputePasses(s, s', b);
    } else {
      hide IdleKnown;
    }
  }

  lemma ComputePasses(s: State, s': State, b: Id)
    requires IdleKnown(s.bhs) && WaitStep(s, s', ComputeOne) && Urgent(s', b) && PassedBy(s'.poller, b)
    ensures Urgent(s, b) && PassedBy(s.poller, b) && s'.event == s.event
  {
    assert s.poller.todo == [s.poller.todo[0]] + s.poller.todo[1..];
  }

  lemma WaitAwake(s: State, s': State, step: Step, b: Id)
    requires Inv(s) && WaitStep(s, s', step) && Urgent(s', b) && PassedBy(s'.poller, b)
    ensures Announced(s', b)
  {
    WaitPasses(s, s', step, b);
    WaitFrame(s, s', step);
    hide WaitStep, Urgent, PassedBy, Allocated, Flagged, IdleKnown, Within;
    AnnouncedSame(s, s', b);
  }

  lemma WalkPassesNone(s: State, s': State, step: Step, b: Id)
    requires WalkStep(s, s', step)
    ensures !PassedBy(s'.poller, b)
  {
  }

  /** A bottom half that becomes urgent was scheduled by a thread that is going to announce it. */
  lemma ScheduleUrgent(s: State, s': State, step: Step, b: Id)
    requires ScheduleStep(s, s', step) && Urgent(s', b) && !Urgent(s, b)
    ensures step.Exchange? && step.t in s'.workers && s'.workers[step.t] == Notifying(b)
  {
  }

  lemma ScheduleAnnounces(s: State, s': State, step: Step, b: Id)
    requires Flagged(s.notifyMe, s.poller) && PassedBy(s.poller, b) && ScheduleStep(s, s', step) && Announced(s, b)
    ensures Announced(s', b)
  {
    hide Announced;
    AnnouncedKept(s, s', step.t, s'.workers[step.t], b);
  }

  lemma ScheduleAwake(s: State, s': State, step: Step, b: Id)
    requires Inv(s) && ScheduleStep(s, s', step) && Urgent(s', b) && PassedBy(s'.poller, b)
    ensures Announced(s', b)
  {
    ScheduleFrame(s, s', step);
    if Urgent(s, b) {
      hide ScheduleStep, Urgent, PassedBy, Allocated, Flagged, IdleKnown;
      ScheduleAnnounces(s, s', step, b);
    } else {
      ScheduleUrgent(s, s', step, b);
    }
  }

  lemma OwnerUrgent(s: State, s': State, step: Step, b: Id)
    requires OwnerStep(s, s', step) && Urgent(s', b)
    ensures Urgent(s, b)
  {
  }

  lemma OwnerAnnounces(s: State, s': State, step: Step, b: Id)
    requires OwnerStep(s, s', step) && Announced(s, b)
    ensures Announced(s', b)
  {
    hide Announced;
    if step.NewBh? || step.Cancel? {
      AnnouncedSame(s, s', b);
    } else {
      AnnouncedKept(s, s', step.t, s'.workers[step.t], b);
    }
  }

  lemma OwnerAwake(s: State, s': State, step: Step, b: Id)
    requires Inv(s) && OwnerStep(s, s', step) && Urgent(s', b) && PassedBy(s'.poller, b)
    ensures Announced(s', b)
  {
    OwnerFrame(s, s', step);
    OwnerUrgent(s, s', step, b);
    OwnerAnnounces(s, s', step, b);
  }

  lemma StepKeepsInv(s: State, s': State, step: Step)
    requires Inv(s) && Steps(s, s', step)
    ensures Inv(s')
  {
    hide WaitStep, WalkStep, ScheduleStep, OwnerStep, Flagged, Allocated, IdleKnown, Urgent, PassedBy, Announced,
         Within;
    if WaitStep(s, s', step) {
      WaitFrame(s, s', step);
      WaitAllocated(s, s', step);
      WaitFlagged(s, s', step);
      forall b | Urgent(s', b) && PassedBy(s'.poller, b) ensures Announced(s', b) {
        WaitAwake(s, s', step, b);
      }
    } else if WalkStep(s, s', step) {
      WalkAllocated(s, s', step);
      WalkFlagged(s, s', step);
      WalkIdleKnown(s, s', step);
      forall b ensures !PassedBy(s'.poller, b) {
        WalkPassesNone(s, s', step, b);
      }
    } else if ScheduleStep(s, s', step) {
      ScheduleFrame(s, s', step);
      ScheduleAllocated(s, s', step);
      ScheduleIdleKnown(s, s', step);
      forall b | Urgent(s', b) && PassedBy(s'.poller, b) ensures Announced(s', b) {
        ScheduleAwake(s, s', step, b);
      }
    } else {
      OwnerFrame(s, s', step);
      OwnerAllocated(s, s', step);
      OwnerIdleKnown(s, s', step);
      forall b | Urgent(s', b) && PassedBy(s'.poller, b) ensures Announced(s', b) {
        OwnerAwake(s, s', step, b);
      }
    }
  }

  lemma {:induction false} RunKeepsInv(run: seq<State>, i: nat)
    requires IsRun(run) && i < |run|
    ensures Inv(run[i])
  {
    if i > 0 {
      RunKeepsInv(run, i - 1);
      assert Next(run[i - 1], run[i - 1 + 1]);
      var step :| Steps(run[i - 1], run[i], step);
      hide Inv, Steps;
      StepKeepsInv(run[i - 1], run[i], step);
    }
  }

  /** No wake-up is lost: in every state of every run, while the poller is blocked, a scheduled bottom
      half that qemu_bh_schedule took from unscheduled to scheduled has set the event, or the thread
      that did so is still going to; with the proviso of `Prompt` for one that was meanwhile marked idle. */
  lemma NoLostWakeup(run: seq<State>, i: nat, b: Id)
    requires IsRun(run) && i < |run|
    requires run[i].poller.Polling? && run[i].poller.blocked && Urgent(run[i], b)
    ensures Announced(run[i], b)
  {
    RunKeepsInv(run, i);
  }

  /** Once all threads are done, a poller that is blocked without the event has nothing left to run. */
  lemma QuietMeansIdle(run: seq<State>, i: nat, b: Id)
    requires IsRun(run) && i < |run|
    requires run[i].poller.Polling? && run[i].poller.blocked && !run[i].event
    requires forall t :: t in run[i].workers ==> run[i].workers[t] == Ready
    ensures !Urgent(run[i], b)
  {
    RunKeepsInv(run, i);
  }

  /** No walk, at any depth of nested polls, meets a bottom half that was freed. */
  lemma WalksAllocated(run: seq<State>, i: nat)
    requires IsRun(run) && i < |run|
    ensures Allocated(run[i])
  {
    RunKeepsInv(run, i);
  }

  // The condition is exact.

  /** The poller is blocked while a bottom half of that origin is scheduled and not idle. */
  ghost predicate Waiting(s: State, b: Id, origin: Origin, capped: bool) {
    && s.poller.Polling? && s.poller.blocked && s.poller.capped == capped
    && b in s.bhs && s.bhs[b].scheduled && !s.bhs[b].idle && !s.bhs[b].deleted && s.bhs[b].origin == origin
  }

  ghost predicate AlwaysAnnounced(origin: Origin, capped: bool) {
    forall run: seq<State>, i: nat, b: Id ::
      IsRun(run) && i < |run| && Waiting(run[i], b, origin, capped) ==> Announced(run[i], b)
  }

  /** A blocked poller is always told of waiting bottom halves of an origin if and only if the origin is prompt. */
  lemma AnnouncedExactly(origin: Origin, capped: bool)
    ensures AlwaysAnnounced(origin, capped) <==> Prompt(origin, capped)
  {
    if Prompt(origin, capped) {
      forall run: seq<State>, i: nat, b: Id | IsRun(run) && i < |run| && Waiting(run[i], b, origin, capped)
        ensures Announced(run[i], b)
      {
        NoLostWakeup(run, i, b);
      }
    } else {
      var run := Missed(origin, capped, 7);
      assert Waiting(run[|run| - 1], 7, origin, capped) && !Announced(run[|run| - 1], 7);
    }
  }

  /** For every other origin, a run that ends with the poller blocked, the bottom half waiting, and nobody
      about to set the event. */
  lemma Missed(origin: Origin, capped: bool, b: Id) returns (run: seq<State>)
    requires !Prompt(origin, capped)
    ensures IsRun(run) && Waiting(run[|run| - 1], b, origin, capped) && !Announced(run[|run| - 1], b)
  {
    run := Created(b);
    hide IsRun, Steps;
    if origin == Mixed {
      run := MarkedWhileScheduled(run, b);
    } else if capped {
      run := IdleBeforePoll(run, b);
    } else {
      run := IdleAfterPoll(run, b);
    }
  }

  function Flags(scheduled: bool, idle: bool, origin: Origin): BottomHalf {
    BottomHalf(scheduled, idle, false, origin)
  }

  /** One bottom half, one thread, no event. */
  function Scene(b: Id, bh: BottomHalf, notifyMe: int, p: Poller, w: Worker): State {
    State(map[b := bh], [b], notifyMe, false, false, p, [], map[0 := w], [])
  }

  lemma RunThen(run: seq<State>, s': State, step: Step) returns (run': seq<State>)
    requires IsRun(run) && Steps(run[|run| - 1], s', step)
    ensures IsRun(run') && run'[|run'| - 1] == s'
  {
    hide Steps;
    assert Next(run[|run| - 1], s');
    run' := run + [s'];
  }

  lemma Created(b: Id) returns (run: seq<State>)
    ensures IsRun(run) && run[|run| - 1] == Scene(b, Flags(false, false, Normal), 0, Outside, Ready)
  {
    run := [State(map[], [], 0, false, false, Outside, [], map[0 := Ready], [])];
    run := RunThen(run, Scene(b, Flags(false, false, Normal), 0, Outside, Ready), NewBh(b));
  }

  /** aio_poll computes its timeout and blocks; it meets `bh`, unscheduled or idle. */
  lemma Blocks(run: seq<State>, b: Id, bh: BottomHalf, w: Worker) returns (run': seq<State>)
    requires IsRun(run) && run[|run| - 1] == Scene(b, bh, 0, Outside, w) && !bh.deleted && (bh.scheduled ==> bh.idle)
    ensures IsRun(run') && run'[|run'| - 1] == Scene(b, bh, 2, Polling(Aio(true), bh.scheduled, true), w)
  {
    hide IsRun, WalkStep, ScheduleStep, OwnerStep;
    run' := RunThen(run, Scene(b, bh, 2, Raised(Aio(true)), w), EnterPoll(Aio(true)));
    run' := RunThen(run', Scene(b, bh, 2, Computing(Aio(true), false, [b], AtDeleted), w), BeginCompute);
    run' := RunThen(run', Scene(b, bh, 2, Computing(Aio(true), false, [b], AtScheduled), w), ComputeOne);
    assert [b][1..] == [];
    if bh.scheduled {
      run' := RunThen(run', Scene(b, bh, 2, Computing(Aio(true), false, [b], AtIdle), w), ComputeOne);
    }
    run' := RunThen(run', Scene(b, bh, 2, Computing(Aio(true), bh.scheduled, [], AtDeleted), w), ComputeOne);
    run' := RunThen(run', Scene(b, bh, 2, Polling(Aio(true), bh.scheduled, true), w), EndCompute);
  }

  /** qemu_bh_schedule finds the bottom half scheduled and notifies nobody. */
  lemma FoundScheduled(run: seq<State>, b: Id, origin: Origin, n: int, p: Poller) returns (run': seq<State>)
    requires IsRun(run) && run[|run| - 1] == Scene(b, Flags(true, true, origin), n, p, Ready)
    ensures IsRun(run') && run'[|run'| - 1] == Scene(b, Flags(true, false, origin), n, p, Ready)
  {
    hide IsRun, WaitStep, WalkStep, OwnerStep;
    run' := RunThen(run, Scene(b, Flags(true, false, origin), n, p, Scheduling(b)), Schedule(0, b));
    run' := RunThen(run', Scene(b, Flags(true, false, origin), n, p, Ready), Exchange(0));
  }

  lemma MarkIdly(run: seq<State>, b: Id, n: int, p: Poller) returns (run': seq<State>)
    requires IsRun(run) && run[|run| - 1] == Scene(b, Flags(false, false, Normal), n, p, Ready)
    ensures IsRun(run') && run'[|run'| - 1] == Scene(b, Flags(true, true, Idle), n, p, Ready)
  {
    hide IsRun, WaitStep, WalkStep, OwnerStep;
    run' := RunThen(run, Scene(b, Flags(false, true, Mixed), n, p, SchedulingIdle(b)), ScheduleIdle(0, b));
    run' := RunThen(run', Scene(b, Flags(true, true, Idle), n, p, Ready), MarkIdle(0));
  }

  /** Scheduled idle while the poller is blocked for good, then normally. */
  lemma IdleAfterPoll(run: seq<State>, b: Id) returns (run': seq<State>)
    requires IsRun(run) && run[|run| - 1] == Scene(b, Flags(false, false, Normal), 0, Outside, Ready)
    ensures IsRun(run')
    ensures run'[|run'| - 1] == Scene(b, Flags(true, false, Idle), 2, Polling(Aio(true), false, true), Ready)
  {
    hide IsRun, Steps, Scene;
    run' := Blocks(run, b, Flags(false, false, Normal), Ready);
    run' := MarkIdly(run', b, 2, Polling(Aio(true), false, true));
    run' := FoundScheduled(run', b, Idle, 2, Polling(Aio(true), false, true));
  }

  /** Scheduled idle before the poller blocks for 10 ms, then normally. */
  lemma IdleBeforePoll(run: seq<State>, b: Id) returns (run': seq<State>)
    requires IsRun(run) && run[|run| - 1] == Scene(b, Flags(false, false, Normal), 0, Outside, Ready)
    ensures IsRun(run')
    ensures run'[|run'| - 1] == Scene(b, Flags(true, false, Idle), 2, Polling(Aio(true), true, true), Ready)
  {
    hide IsRun, Steps, Scene;
    run' := MarkIdly(run, b, 0, Outside);
    run' := Blocks(run', b, Flags(true, true, Idle), Ready);
    run' := FoundScheduled(run', b, Idle, 2, Polling(Aio(true), true, true));
  }

  /** Scheduled normally while nobody polls, marked idle before the poller blocks for 10 ms, then normally again. */
  lemma MarkedWhileScheduled(run: seq<State>, b: Id) returns (run': seq<State>)
    requires IsRun(run) && run[|run| - 1] == Scene(b, Flags(false, false, Normal), 0, Outside, Ready)
    ensures IsRun(run')
    ensures run'[|run'| - 1] == Scene(b, Flags(true, false, Mixed), 2, Polling(Aio(true), true, true), Ready)
  {
    hide IsRun, Steps, Scene;
    run' := ScheduledUnheard(run, b);
    run' := MarkMixed(run', b);
    run' := Blocks(run', b, Flags(true, true, Mixed), SchedulingIdle(b));
    run' := MarkAgain(run', b, 2, Polling(Aio(true), true, true));
    run' := FoundScheduled(run', b, Mixed, 2, Polling(Aio(true), true, true));
  }

  /** Nobody polls, so qemu_bh_schedule need not set the event. */
  lemma ScheduledUnheard(run: seq<State>, b: Id) returns (run': seq<State>)
    requires IsRun(run) && run[|run| - 1] == Scene(b, Flags(false, false, Normal), 0, Outside, Ready)
    ensures IsRun(run') && run'[|run'| - 1] == Scene(b, Flags(true, false, Normal), 0, Outside, Ready)
  {
    hide IsRun, WaitStep, WalkStep, OwnerStep;
    run' := RunThen(run, Scene(b, Flags(false, false, Normal), 0, Outside, Scheduling(b)), Schedule(0, b));
    run' := RunThen(run', Scene(b, Flags(true, false, Normal), 0, Outside, Notifying(b)), Exchange(0));
    run' := RunThen(run', Scene(b, Flags(true, false, Normal), 0, Outside, Ready), ReadNotifyMe(0));
  }

  lemma MarkMixed(run: seq<State>, b: Id) returns (run': seq<State>)
    requires IsRun(run) && run[|run| - 1] == Scene(b, Flags(true, false, Normal), 0, Outside, Ready)
    ensures IsRun(run') && run'[|run'| - 1] == Scene(b, Flags(true, true, Mixed), 0, Outside, SchedulingIdle(b))
  {
    hide IsRun, WaitStep, WalkStep, OwnerStep;
    run' := RunThen(run, Scene(b, Flags(true, true, Mixed), 0, Outside, SchedulingIdle(b)), ScheduleIdle(0, b));
  }

  lemma MarkAgain(run: seq<State>, b: Id, n: int, p: Poller) returns (run': seq<State>)
    requires IsRun(run) && run[|run| - 1] == Scene(b, Flags(true, true, Mixed), n, p, SchedulingIdle(b))
    ensures IsRun(run') && run'[|run'| - 1] == Scene(b, Flags(true, true, Mixed), n, p, Ready)
  {
    hide IsRun, WaitStep, WalkStep, OwnerStep;
    run' := RunThen(run, Scene(b, Flags(true, true, Mixed), n, p, Ready), MarkIdle(0));
  }
}
