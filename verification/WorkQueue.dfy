/** The work queue of a virtual CPU (qemu/cpus.c): run_on_cpu and async_run_on_cpu in any number of threads,
    flush_queued_work in the thread of the CPU. Steps interleave freely; the mutex is one of the steps. */
module WorkQueue {
  import opened Common

  type Thread = nat
  type Item = nat
  type Ticket = nat

  /** Who has an item: the thread that fills it, the queue, the thread of the CPU, or the waiting thread. */
  datatype Stage = Building | Queued | Current | Finished

  /** A qemu_work_item. `ticket` stands for the function and its data; `stage` records who has the item. */
  datatype Work = Work(next: Option<Item>, done: bool, free: bool, ticket: Ticket, stage: Stage)

  datatype Pc =
    | Outside
    | Built(item: Item)
    | Locked(item: Item)
    | Linked(item: Item)    // queued_work_first or the last item's next is set
    | Chained(item: Item)   // and queued_work_last
    | Filled(item: Item)    // and the item's own fields
    | Waiting(item: Item)

  datatype Consumer =
    | Idle
    | Wants
    | Loop
    | Took(item: Item)
    | Calling(item: Item)
    | Called(item: Item)
    | Finishing(item: Item)

  datatype Holder = Free | Worker(t: Thread) | Cpu

  /** `items` is the memory that is allocated; `bad` is set by an access to anything else.
      `queue`, `enqueued` and `ran` record what happened. */
  datatype State = State(
    first: Option<Item>, last: Option<Item>, items: map<Item, Work>, lock: Holder, pcs: map<Thread, Pc>, cpu: Consumer,
    bad: bool, queue: seq<Item>, enqueued: seq<Ticket>, ran: seq<Ticket>)

  function At(s: State, t: Thread): Pc {
    if t in s.pcs then s.pcs[t] else Outside
  }

  datatype Step =
    | Begin(t: Thread, item: Item, work: Work)
    | Lock(t: Thread) | Link(t: Thread) | SetLast(t: Thread) | Fill(t: Thread) | Unlock(t: Thread) | Return(t: Thread)
    | Peek | LockCpu | Take | EndLoop | UnlockCpu | Call | Relock | Complete

  predicate Enabled(s: State, step: Step) {
    match step
    case Begin(t, item, work) => At(s, t) == Outside && item !in s.items && work.stage == Building
    case Lock(t) => At(s, t).Built? && s.lock == Free
    case Link(t) => At(s, t).Locked?
    case SetLast(t) => At(s, t).Linked?
    case Fill(t) => At(s, t).Chained?
    case Unlock(t) => At(s, t).Filled?
    case Return(t) => At(s, t).Waiting?
    case Peek => s.cpu == Idle && s.first != None
    case LockCpu => s.cpu == Wants && s.lock == Free
    case Take => s.cpu == Loop && s.first != None
    case EndLoop => s.cpu == Loop && s.first == None
    case UnlockCpu => s.cpu.Took?
    case Call => s.cpu.Calling?
    case Relock => s.cpu.Called? && s.lock == Free
    case Complete => s.cpu.Finishing?
  }

  function Go(s: State, t: Thread, pc: Pc): State {
    s.(pcs := s.pcs[t := pc])
  }

  function Do(s: State, step: Step): State
    requires Enabled(s, step)
  {
    match step
    case Begin(t, item, work) => Go(s.(items := s.items[item := work]), t, Built(item))
    case Lock(t) => Go(s.(lock := Worker(t)), t, Locked(At(s, t).item))
    case Link(t) =>
      var i := At(s, t).item;
      if s.first == None then Go(s.(first := Some(i)), t, Linked(i))
      else if s.last == None || s.last.value !in s.items then s.(bad := true)
      else Go(s.(items := s.items[s.last.value := s.items[s.last.value].(next := Some(i))]), t, Linked(i))
    case SetLast(t) => Go(s.(last := Some(At(s, t).item)), t, Chained(At(s, t).item))
    case Fill(t) =>
      var i := At(s, t).item;
      if i !in s.items then s.(bad := true)
      else Go(s.(items := s.items[i := s.items[i].(next := None, done := false, stage := Queued)],
                 queue := s.queue + [i], enqueued := s.enqueued + [s.items[i].ticket]), t, Filled(i))
    case Unlock(t) =>
      var i := At(s, t).item;
      if i !in s.items then s.(bad := true)
      else Go(s.(lock := Free), t, if s.items[i].free then Outside else Waiting(i))
    case Return(t) =>
      var i := At(s, t).item;
      if i !in s.items then s.(bad := true)
      else if s.items[i].done then Go(s.(items := s.items - {i}), t, Outside)
      else s
    case Peek => s.(cpu := Wants)
    case LockCpu => s.(cpu := Loop, lock := Cpu)
    case Take =>
      var i := s.first.value;
      if i !in s.items then s.(bad := true)
      else s.(first := s.items[i].next, last := if s.items[i].next == None then None else s.last, cpu := Took(i),
              items := s.items[i := s.items[i].(stage := Current)], queue := if s.queue == [] then [] else s.queue[1..])
    case EndLoop => s.(cpu := Idle, lock := Free)
    case UnlockCpu => s.(cpu := Calling(s.cpu.item), lock := Free)
    case Call =>
      var i := s.cpu.item;
      if i !in s.items then s.(bad := true) else s.(cpu := Called(i), ran := s.ran + [s.items[i].ticket])
    case Relock => s.(cpu := Finishing(s.cpu.item), lock := Cpu)
    case Complete =>
      var i := s.cpu.item;
      if i !in s.items then s.(bad := true)
      else if s.items[i].free then s.(items := s.items - {i}, cpu := Loop)
      else s.(items := s.items[i := s.items[i].(done := true, stage := Finished)], cpu := Loop)
  }

  function Init(): State {
    State(None, None, map[], Free, map[], Idle, false, [], [], [])
  }

  ghost predicate Next(s: State, s': State) {
    exists step :: Enabled(s, step) && s' == Do(s, step)
  }

  ghost predicate IsRun(run: seq<State>) {
    |run| > 0 && run[0] == Init() && forall i: nat :: i + 1 < |run| ==> Next(run[i], run[i + 1])
  }

  // The invariant.

  predicate Busy(c: Consumer) {
    c.Took? || c.Calling? || c.Called? || c.Finishing?
  }

  predicate Holding(c: Consumer, i: Item) {
    Busy(c) && c.item == i
  }

  /** Where a thread is fits the stage of its item. */
  predicate PcOk(pc: Pc, w: Work) {
    match pc
    case Outside => true
    case Built(_) => w.stage == Building
    case Locked(_) => w.stage == Building
    case Linked(_) => w.stage == Building
    case Chained(_) => w.stage == Building
    case Filled(_) => w.stage == Queued && !w.done
    case Waiting(_) => w.stage != Building && !w.free && (w.done <==> w.stage == Finished)
  }

  /** Each thread has its own item. */
  ghost predicate Threads(s: State) {
    && (forall t: Thread :: !At(s, t).Outside? ==> At(s, t).item in s.items && PcOk(At(s, t), s.items[At(s, t).item]))
    && (forall t: Thread, u: Thread :: !At(s, t).Outside? && !At(s, u).Outside? && At(s, t).item == At(s, u).item ==>
          t == u)
  }

  predicate NeedsLock(pc: Pc) {
    pc.Locked? || pc.Linked? || pc.Chained? || pc.Filled?
  }

  ghost predicate Mutex(s: State) {
    && (forall t: Thread :: NeedsLock(At(s, t)) <==> s.lock == Worker(t))
    && (s.cpu.Loop? || s.cpu.Took? || s.cpu.Finishing? <==> s.lock == Cpu)
  }

  ghost predicate Stages(s: State) {
    && (forall i :: i in s.queue ==> i in s.items)
    && (forall i :: i in s.items ==>
          && (s.items[i].stage == Queued <==> i in s.queue)
          && (s.items[i].stage == Current <==> Holding(s.cpu, i))
          && (s.items[i].stage == Finished ==> !s.items[i].free && s.items[i].done))
    && (Busy(s.cpu) ==> s.cpu.item in s.items)
    && (forall j, k :: 0 <= j < k < |s.queue| ==> s.queue[j] != s.queue[k])
  }

  /** The pointer after the last queued item: to the item that is being linked, or nowhere. */
  function Tail(s: State): Option<Item> {
    match s.lock
    case Worker(t) => if At(s, t).Linked? || At(s, t).Chained? then Some(At(s, t).item) else None
    case _ => None
  }

  function LastPointer(s: State): Option<Item> {
    match s.lock
    case Worker(t) => if At(s, t).Chained? then Some(At(s, t).item) else LastOf(s.queue)
    case _ => LastOf(s.queue)
  }

  function LastOf(q: seq<Item>): Option<Item> {
    if q == [] then None else Some(q[|q| - 1])
  }

  /** The queue is the list from queued_work_first to queued_work_last. */
  ghost predicate Listed(s: State) {
    && s.first == (if s.queue == [] then Tail(s) else Some(s.queue[0]))
    && s.last == LastPointer(s)
    && (forall k: nat :: k < |s.queue| ==> LinkOk(s.items, s.queue, k, Tail(s)))
  }

  predicate LinkOk(items: map<Item, Work>, q: seq<Item>, k: nat, tail: Option<Item>)
    requires k < |q|
  {
    q[k] in items && items[q[k]].next == if k + 1 < |q| then Some(q[k + 1]) else tail
  }

  function Tickets(items: map<Item, Work>, q: seq<Item>): seq<Ticket>
    requires forall i :: i in q ==> i in items
  {
    if q == [] then [] else [items[q[0]].ticket] + Tickets(items, q[1..])
  }

  /** What was enqueued has run, is about to run, or is queued, in that order. */
  ghost predicate Fifo(s: State) {
    && (forall i :: i in s.queue ==> i in s.items)
    && ((s.cpu.Took? || s.cpu.Calling?) ==> s.cpu.item in s.items)
    && s.enqueued == s.ran + (if s.cpu.Took? || s.cpu.Calling? then [s.items[s.cpu.item].ticket] else [])
         + Tickets(s.items, s.queue)
  }

  ghost predicate Inv(s: State) {
    !s.bad && Threads(s) && Mutex(s) && Stages(s) && Listed(s) && Fifo(s)
  }

  // Every step keeps it.

  function Actor(step: Step): Option<Thread> {
    match step
    case Begin(t, _, _) => Some(t)
    case Lock(t) => Some(t)
    case Link(t) => Some(t)
    case SetLast(t) => Some(t)
    case Fill(t) => Some(t)
    case Unlock(t) => Some(t)
    case Return(t) => Some(t)
    case _ => None
  }

  lemma OthersStay(s: State, step: Step)
    requires Enabled(s, step)
    ensures forall u: Thread :: Some(u) != Actor(step) ==> At(Do(s, step), u) == At(s, u)
  {
  }

  lemma NotBad(s: State, step: Step)
    requires Inv(s) && Enabled(s, step)
    ensures !Do(s, step).bad
  {
    hide Fifo;
    var who := Actor(step);
    if who.Some? {
      assert NeedsLock(At(s, who.value)) <==> s.lock == Worker(who.value);
    }
    if s.queue != [] {
      assert LinkOk(s.items, s.queue, 0, Tail(s)) && LinkOk(s.items, s.queue, |s.queue| - 1, Tail(s));
    }
  }

  lemma KeepsMutex(s: State, step: Step)
    requires Inv(s) && Enabled(s, step)
    ensures Mutex(Do(s, step))
  {
    NotBad(s, step);
    if Actor(step).Some? {
      WorkerMutex(s, step, Actor(step).value);
    } else {
      CpuMutex(s, step);
    }
    hide Threads, Stages, Mutex, Listed, Fifo, Do;
  }

  lemma WorkerMutex(s: State, step: Step, t: Thread)
    requires Mutex(s) && Enabled(s, step) && Actor(step) == Some(t) && !Do(s, step).bad
    ensures Mutex(Do(s, step))
  {
    OthersStay(s, step);
    assert NeedsLock(At(s, t)) <==> s.lock == Worker(t);
  }

  lemma CpuMutex(s: State, step: Step)
    requires Mutex(s) && Enabled(s, step) && Actor(step) == None && !Do(s, step).bad
    ensures Mutex(Do(s, step))
  {
    OthersStay(s, step);
  }

  lemma KeepsThreads(s: State, step: Step)
    requires Inv(s) && Enabled(s, step)
    ensures Threads(Do(s, step))
  {
    NotBad(s, step);
    if Actor(step).Some? {
      WorkerThreads(s, step, Actor(step).value);
    } else {
      CpuThreads(s, step);
    }
    hide Threads, Stages, Mutex, Listed, Fifo, Do;
  }

  lemma WorkerThreads(s: State, step: Step, t: Thread)
    requires Threads(s) && Enabled(s, step) && Actor(step) == Some(t) && !Do(s, step).bad
    ensures Threads(Do(s, step))
  {
    OthersStay(s, step);
    var s' := Do(s, step);
    assert !At(s, t).Outside? ==> PcOk(At(s, t), s.items[At(s, t).item]);
    forall u: Thread | u != t && !At(s', u).Outside?
      ensures At(s', u).item in s'.items && PcOk(At(s', u), s'.items[At(s', u).item])
    {
      assert !At(s, u).Outside? && PcOk(At(s, u), s.items[At(s, u).item]);
    }
  }

  lemma CpuThreads(s: State, step: Step)
    requires Threads(s) && Mutex(s) && Stages(s) && Enabled(s, step) && Actor(step) == None && !Do(s, step).bad
    requires s.queue != [] ==> s.first == Some(s.queue[0])
    requires s.lock == Cpu && s.queue == [] ==> s.first == None
    ensures Threads(Do(s, step))
  {
    OthersStay(s, step);
    var s' := Do(s, step);
    forall u: Thread | !At(s', u).Outside?
      ensures At(s', u).item in s'.items && PcOk(At(s', u), s'.items[At(s', u).item])
    {
      assert !At(s, u).Outside? && PcOk(At(s, u), s.items[At(s, u).item]);
      assert NeedsLock(At(s, u)) <==> s.lock == Worker(u);
    }
  }

  lemma KeepsStages(s: State, step: Step)
    requires Inv(s) && Enabled(s, step)
    ensures Stages(Do(s, step))
  {
    NotBad(s, step);
    if Actor(step).Some? {
      WorkerStages(s, step, Actor(step).value);
    } else {
      CpuStages(s, step);
    }
    hide Threads, Stages, Mutex, Listed, Fifo, Do;
  }

  lemma WorkerStages(s: State, step: Step, t: Thread)
    requires Threads(s) && Stages(s) && Enabled(s, step) && Actor(step) == Some(t) && !Do(s, step).bad
    ensures Stages(Do(s, step))
  {
    var s' := Do(s, step);
    match step {
      case Begin(_, item, work) => BeginStages(s, s', item, work);
      case Link(_) => LinkStages(s, s');
      case Fill(_) =>
        assert PcOk(At(s, t), s.items[At(s, t).item]);
        FillStages(s, s', At(s, t).item);
      case Return(_) =>
        assert PcOk(At(s, t), s.items[At(s, t).item]);
        ReturnStages(s, s', At(s, t).item);
      case _ => SameStages(s, s');
    }
  }

  lemma SameStages(s: State, s': State)
    requires Stages(s) && s'.items == s.items && s'.queue == s.queue && s'.cpu == s.cpu
    ensures Stages(s')
  {
  }

  lemma BeginStages(s: State, s': State, i: Item, work: Work)
    requires Stages(s) && s'.items == s.items[i := work] && i !in s.items && work.stage == Building
    requires s'.queue == s.queue && s'.cpu == s.cpu
    ensures Stages(s')
  {
  }

  lemma LinkStages(s: State, s': State)
    requires Stages(s) && s'.items.Keys == s.items.Keys && s'.queue == s.queue && s'.cpu == s.cpu
    requires forall i :: i in s.items ==> s'.items[i] == s.items[i].(next := s'.items[i].next)
    ensures Stages(s')
  {
    assert forall i :: i in s'.items <==> i in s.items;
  }

  lemma FillStages(s: State, s': State, i: Item)
    requires Stages(s) && i in s.items && s.items[i].stage == Building && s'.queue == s.queue + [i] && s'.cpu == s.cpu
    requires s'.items == s.items[i := s.items[i].(next := None, done := false, stage := Queued)]
    ensures Stages(s')
  {
  }

  lemma ReturnStages(s: State, s': State, i: Item)
    requires Stages(s) && i in s.items && s'.queue == s.queue && s'.cpu == s.cpu
    requires s'.items == s.items || (s'.items == s.items - {i} && s.items[i].stage == Finished)
    ensures Stages(s')
  {
  }

  lemma CpuStages(s: State, step: Step)
    requires Stages(s) && Enabled(s, step) && Actor(step) == None && !Do(s, step).bad
    requires s.queue != [] ==> s.first == Some(s.queue[0])
    requires s.cpu == Loop && s.queue == [] ==> s.first == None
    ensures Stages(Do(s, step))
  {
    if step == Take {
      TakeStages(s, Do(s, step));
    } else if step == Complete {
      CompleteStages(s, Do(s, step));
    }
  }

  lemma TakeStages(s: State, s': State)
    requires Stages(s) && s.queue != [] && !Busy(s.cpu)
    requires var i := s.queue[0];
             s'.cpu == Took(i) && s'.queue == s.queue[1..] && s'.items == s.items[i := s.items[i].(stage := Current)]
    ensures Stages(s')
  {
    assert s.queue == [s.queue[0]] + s.queue[1..];
  }

  lemma CompleteStages(s: State, s': State)
    requires Stages(s) && Busy(s.cpu) && s'.cpu == Loop && s'.queue == s.queue
    requires var i := s.cpu.item;
             s'.items == if s.items[i].free then s.items - {i}
               else s.items[i := s.items[i].(done := true, stage := Finished)]
    ensures Stages(s')
  {
  }

  lemma KeepsListed(s: State, step: Step)
    requires Inv(s) && Enabled(s, step)
    ensures Listed(Do(s, step))
  {
    NotBad(s, step);
    if Actor(step).Some? {
      WorkerListed(s, step, Actor(step).value);
    } else {
      CpuListed(s, step);
    }
    hide Threads, Stages, Mutex, Listed, Fifo, Do;
  }

  lemma WorkerListed(s: State, step: Step, t: Thread)
    requires Threads(s) && Mutex(s) && Stages(s) && Listed(s) && Enabled(s, step) && Actor(step) == Some(t)
    requires !Do(s, step).bad
    ensures Listed(Do(s, step))
  {
    var s' := Do(s, step);
    assert NeedsLock(At(s, t)) <==> s.lock == Worker(t);
    assert !At(s, t).Outside? ==> PcOk(At(s, t), s.items[At(s, t).item]);
    WorkerTail(s, step, t);
    if step.Link? {
      LinkListed(s, s', t);
    } else if step.Fill? {
      FillListed(s, s', At(s, t).item);
    } else if step.SetLast? {
      ListedLast(s, s');
    } else {
      WorkerNext(s, step, t);
      hide Threads, Stages, Mutex, Listed, Tail, LastPointer;
      SameList(s, s');
    }
  }

  /** Only linking and filling move the end of the list, and only the mutex's holder does it. */
  lemma WorkerTail(s: State, step: Step, t: Thread)
    requires Mutex(s) && Enabled(s, step) && Actor(step) == Some(t) && !Do(s, step).bad
    ensures var s' := Do(s, step);
            && (step.Link? ==> Tail(s) == None && Tail(s') == Some(At(s, t).item) && LastPointer(s') == LastPointer(s))
            && (step.SetLast? ==> Tail(s') == Tail(s) && LastPointer(s') == Some(At(s, t).item))
            && (step.Fill? ==>
                  Tail(s) == Some(At(s, t).item) && LastPointer(s) == Some(At(s, t).item) && Tail(s') == None
                               && LastPointer(s') == LastOf(s'.queue))
            && (!step.Link? && !step.SetLast? && !step.Fill? ==>
                  Tail(s') == Tail(s) && LastPointer(s') == LastPointer(s))
  {
    assert NeedsLock(At(s, t)) <==> s.lock == Worker(t);
    OthersStay(s, step);
  }

  /** The other steps of a worker leave the items of the queue alone. */
  lemma WorkerNext(s: State, step: Step, t: Thread)
    requires Threads(s) && Stages(s) && Enabled(s, step) && Actor(step) == Some(t) && !Do(s, step).bad
    requires !step.Link? && !step.Fill?
    ensures var s' := Do(s, step);
            && forall i :: i in s.queue && i in s.items ==> i in s'.items && s'.items[i].next == s.items[i].next
  {
    assert !At(s, t).Outside? ==> PcOk(At(s, t), s.items[At(s, t).item]);
  }

  lemma ListedLast(s: State, s': State)
    requires Listed(s) && s'.queue == s.queue && s'.first == s.first && s'.items == s.items
    requires s'.last == LastPointer(s') && Tail(s') == Tail(s)
    ensures Listed(s')
  {
    hide Tail, LastPointer;
    forall k: nat | k < |s'.queue| ensures LinkOk(s'.items, s'.queue, k, Tail(s')) {
      assert LinkOk(s.items, s.queue, k, Tail(s));
    }
  }

  lemma LinkListed(s: State, s': State, t: Thread)
    requires Stages(s) && Listed(s) && At(s, t).Locked? && s'.queue == s.queue && s'.last == s.last
    requires Tail(s) == None && Tail(s') == Some(At(s, t).item) && LastPointer(s') == LastPointer(s) == LastOf(s.queue)
    requires s.first == None ==> s'.first == Some(At(s, t).item) && s'.items == s.items
    requires s.first.Some? ==>
               && s'.first == s.first && s.last.Some? && s.last.value in s.items
               && s'.items == s.items[s.last.value := s.items[s.last.value].(next := Some(At(s, t).item))]
    ensures Listed(s')
  {
    hide Tail, LastPointer;
    forall k: nat | k < |s'.queue| ensures LinkOk(s'.items, s'.queue, k, Tail(s')) {
      assert LinkOk(s.items, s.queue, k, Tail(s));
    }
  }

  lemma FillListed(s: State, s': State, i: Item)
    requires Stages(s) && Listed(s) && i in s.items && s.items[i].stage == Building && s'.queue == s.queue + [i]
    requires s'.items == s.items[i := s.items[i].(next := None, done := false, stage := Queued)]
    requires s'.first == s.first && s'.last == s.last && Tail(s) == Some(i) && LastPointer(s) == Some(i)
    requires Tail(s') == None
    requires LastPointer(s') == LastOf(s'.queue)
    ensures Listed(s')
  {
    hide Tail, LastPointer;
    forall k: nat | k < |s'.queue| ensures LinkOk(s'.items, s'.queue, k, Tail(s')) {
      assert k < |s.queue| ==> LinkOk(s.items, s.queue, k, Tail(s));
    }
  }

  lemma CpuListed(s: State, step: Step)
    requires Mutex(s) && Stages(s) && Listed(s) && Enabled(s, step) && Actor(step) == None && !Do(s, step).bad
    ensures Listed(Do(s, step))
  {
    OthersStay(s, step);
    if step == Take {
      TakeListed(s, Do(s, step));
    } else {
      CpuSame(s, step);
      hide Stages, Mutex, Listed, Tail, LastPointer;
      SameList(s, Do(s, step));
    }
  }

  /** The other steps of the CPU's thread leave the items of the queue alone. */
  lemma CpuSame(s: State, step: Step)
    requires Mutex(s) && Stages(s) && Enabled(s, step) && Actor(step) == None && !Do(s, step).bad && step != Take
    ensures var s' := Do(s, step);
            && s'.queue == s.queue && s'.first == s.first && s'.last == s.last
            && Tail(s') == Tail(s) && LastPointer(s') == LastPointer(s)
            && forall i :: i in s.queue && i in s.items ==> i in s'.items && s'.items[i].next == s.items[i].next
  {
    OthersStay(s, step);
  }

  lemma TakeListed(s: State, s': State)
    requires Stages(s) && Listed(s) && s.lock == Cpu && s'.lock == Cpu && s.queue != []
    requires var i := s.queue[0];
             && s'.queue == s.queue[1..] && s'.items == s.items[i := s.items[i].(stage := Current)]
             && s'.first == s.items[i].next && s'.last == (if s.items[i].next == None then None else s.last)
    ensures Listed(s')
  {
    assert LinkOk(s.items, s.queue, 0, Tail(s));
    forall k: nat | k < |s'.queue| ensures LinkOk(s'.items, s'.queue, k, Tail(s')) {
      assert LinkOk(s.items, s.queue, k + 1, Tail(s));
    }
  }

  lemma SameList(s: State, s': State)
    requires Listed(s) && s'.queue == s.queue && s'.first == s.first && s'.last == s.last
    requires Tail(s') == Tail(s) && LastPointer(s') == LastPointer(s)
    requires forall i :: i in s.queue && i in s.items ==> i in s'.items && s'.items[i].next == s.items[i].next
    ensures Listed(s')
  {
    hide Tail, LastPointer;
    forall k: nat | k < |s'.queue| ensures LinkOk(s'.items, s'.queue, k, Tail(s')) {
      assert LinkOk(s.items, s.queue, k, Tail(s));
    }
  }

  lemma {:induction false} TicketsSame(items: map<Item, Work>, items': map<Item, Work>, q: seq<Item>)
    requires forall i :: i in q ==> i in items && i in items' && items'[i].ticket == items[i].ticket
    ensures Tickets(items', q) == Tickets(items, q)
  {
    if q != [] {
      TicketsSame(items, items', q[1..]);
    }
  }

  lemma {:induction false} TicketsAdd(items: map<Item, Work>, q: seq<Item>, i: Item)
    requires (forall i :: i in q ==> i in items) && i in items
    ensures Tickets(items, q + [i]) == Tickets(items, q) + [items[i].ticket]
  {
    if q == [] {
      assert [] + [i] == [i];
    } else {
      TicketsAdd(items, q[1..], i);
      assert (q + [i])[1..] == q[1..] + [i];
    }
  }

  lemma KeepsFifo(s: State, step: Step)
    requires Inv(s) && Enabled(s, step)
    ensures Fifo(Do(s, step))
  {
    NotBad(s, step);
    KeepsStages(s, step);
    var s' := Do(s, step);
    if step == Take {
      TakeFifo(s, s');
    } else {
      StillQueued(s, step);
      TicketsKept(s, step);
      if step.Fill? {
        FillFifo(s, s', At(s, step.t).item);
      } else {
        OtherFifo(s, step);
      }
    }
    hide Threads, Stages, Mutex, Listed, Fifo, Tickets;
  }

  lemma OtherFifo(s: State, step: Step)
    requires Fifo(s) && Enabled(s, step) && !step.Fill? && step != Take && !Do(s, step).bad
    requires forall i :: i in s.queue ==> i in Do(s, step).items
    requires s.cpu.Took? || s.cpu.Calling? ==>
               s.cpu.item in Do(s, step).items && Do(s, step).items[s.cpu.item].ticket == s.items[s.cpu.item].ticket
    requires Tickets(Do(s, step).items, s.queue) == Tickets(s.items, s.queue)
    ensures Fifo(Do(s, step))
  {
    hide Tickets;
    SameFifo(s, Do(s, step));
  }

  /** Items that the queue or the CPU's thread has are there after any step, with their tickets. */
  lemma StillQueued(s: State, step: Step)
    requires Threads(s) && Stages(s) && Enabled(s, step) && !Do(s, step).bad
    ensures Stays(s, Do(s, step))
  {
    var who := Actor(step);
    if who.Some? {
      assert !At(s, who.value).Outside? ==> PcOk(At(s, who.value), s.items[At(s, who.value).item]);
      WorkerStays(s, step, who.value);
    } else {
      CpuStays(s, step);
    }
    hide Threads, Stages, Stays, Do;
  }

  ghost predicate Stays(s: State, s': State) {
    && (forall i :: i in s.queue ==> i in s'.items)
    && ((s.cpu.Took? || s.cpu.Calling?) && s.cpu.item in s.items ==>
          s.cpu.item in s'.items && s'.items[s.cpu.item].ticket == s.items[s.cpu.item].ticket)
  }

  lemma WorkerStays(s: State, step: Step, t: Thread)
    requires Stages(s) && Enabled(s, step) && !Do(s, step).bad && Actor(step) == Some(t)
    requires !At(s, t).Outside? ==> At(s, t).item in s.items && PcOk(At(s, t), s.items[At(s, t).item])
    ensures Stays(s, Do(s, step))
  {
  }

  lemma CpuStays(s: State, step: Step)
    requires Stages(s) && Enabled(s, step) && !Do(s, step).bad && Actor(step) == None
    ensures Stays(s, Do(s, step))
  {
  }

  /** The item that is about to run, if there is one. */
  ghost function Pending(s: State): seq<Ticket> {
    if (s.cpu.Took? || s.cpu.Calling?) && s.cpu.item in s.items then [s.items[s.cpu.item].ticket] else []
  }

  lemma SameFifo(s: State, s': State)
    requires Fifo(s) && s'.queue == s.queue && s'.enqueued == s.enqueued && s'.ran + Pending(s') == s.ran + Pending(s)
    requires (forall i :: i in s.queue ==> i in s'.items)
    requires (s'.cpu.Took? || s'.cpu.Calling? ==> s'.cpu.item in s'.items)
    requires (forall i :: i in s.queue ==> i in s.items) && Tickets(s'.items, s.queue) == Tickets(s.items, s.queue)
    ensures Fifo(s')
  {
  }

  lemma FillFifo(s: State, s': State, i: Item)
    requires Fifo(s) && (forall i :: i in s.queue ==> i in s'.items) && i in s'.items && i in s.items
    requires s'.items[i].ticket == s.items[i].ticket
    requires s'.queue == s.queue + [i] && s'.enqueued == s.enqueued + [s.items[i].ticket] && s'.ran == s.ran
    requires s'.cpu == s.cpu
    requires Pending(s') == Pending(s) && (s'.cpu.Took? || s'.cpu.Calling? ==> s'.cpu.item in s'.items)
    requires Tickets(s'.items, s.queue) == Tickets(s.items, s.queue)
    ensures Fifo(s')
  {
    TicketsAdd(s'.items, s.queue, i);
  }

  lemma TakeFifo(s: State, s': State)
    requires Fifo(s) && s.queue != [] && !Busy(s.cpu) && s'.queue == s.queue[1..] && s'.enqueued == s.enqueued
    requires s'.ran == s.ran
    requires var i := s.queue[0]; s'.cpu == Took(i) && s'.items == s.items[i := s.items[i].(stage := Current)]
    ensures Fifo(s')
  {
    TicketsSame(s.items, s'.items, s'.queue);
  }

  /** Tickets of queued items do not change. */
  lemma TicketsKept(s: State, step: Step)
    requires Threads(s) && Stages(s) && Enabled(s, step) && !Do(s, step).bad
    requires forall i :: i in s.queue ==> i in Do(s, step).items
    ensures Tickets(Do(s, step).items, s.queue) == Tickets(s.items, s.queue)
  {
    hide Tickets;
    TicketsSame(s.items, Do(s, step).items, s.queue);
  }

  lemma StepKeeps(s: State, step: Step)
    requires Inv(s) && Enabled(s, step)
    ensures Inv(Do(s, step))
  {
    hide Do, Enabled, Threads, Mutex, Stages, Listed, Fifo;
    NotBad(s, step);
    KeepsThreads(s, step);
    KeepsMutex(s, step);
    KeepsStages(s, step);
    KeepsListed(s, step);
    KeepsFifo(s, step);
  }

  lemma {:induction false} RunKeeps(run: seq<State>, i: nat)
    requires IsRun(run) && i < |run|
    ensures Inv(run[i])
  {
    if i > 0 {
      RunKeeps(run, i - 1);
      hide Do, Enabled, Inv;
      assert Next(run[i - 1], run[i]);
      var step :| Enabled(run[i - 1], step) && run[i] == Do(run[i - 1], step);
      StepKeeps(run[i - 1], step);
    } else {
      InitInv();
    }
  }

  lemma InitInv()
    ensures Inv(Init())
  {
  }

  /** No access goes to memory that is gone, and work runs once each, in the order it was enqueued. */
  lemma RunsInOrder(run: seq<State>, i: nat)
    requires IsRun(run) && i < |run|
    ensures !run[i].bad && run[i].ran <= run[i].enqueued
    ensures run[i].first == None && run[i].cpu == Idle && run[i].lock == Free ==> run[i].ran == run[i].enqueued
  {
    RunKeeps(run, i);
  }

  /** Following `next` from `from` visits exactly the items of `q`, in order, and ends there. */
  ghost predicate LeadsThrough(items: map<Item, Work>, from: Option<Item>, q: seq<Item>)
    decreases |q|
  {
    if q == [] then from == None
    else from == Some(q[0]) && q[0] in items && LeadsThrough(items, items[q[0]].next, q[1..])
  }

  lemma {:induction false} LinksLead(items: map<Item, Work>, q: seq<Item>, k: nat)
    requires k <= |q| && forall j: nat :: j < |q| ==> LinkOk(items, q, j, None)
    ensures LeadsThrough(items, if k < |q| then Some(q[k]) else None, q[k..])
    decreases |q| - k
  {
    if k < |q| {
      LinksLead(items, q, k + 1);
      assert LinkOk(items, q, k, None);
      assert q[k..][1..] == q[k + 1..];
    }
  }

  /** Whenever the mutex is free or the CPU's thread has it, following `next` from queued_work_first visits
      exactly the queue, without repetition, and arrives at queued_work_last. */
  lemma ListWellFormed(run: seq<State>, i: nat)
    requires IsRun(run) && i < |run| && (run[i].lock == Free || run[i].lock == Cpu)
    ensures LeadsThrough(run[i].items, run[i].first, run[i].queue) && run[i].last == LastOf(run[i].queue)
    ensures forall j, k :: 0 <= j < k < |run[i].queue| ==> run[i].queue[j] != run[i].queue[k]
  {
    RunKeeps(run, i);
    var s := run[i];
    forall j: nat | j < |s.queue| ensures LinkOk(s.items, s.queue, j, None) {
      assert LinkOk(s.items, s.queue, j, Tail(s));
    }
    LinksLead(s.items, s.queue, 0);
    assert s.queue[0..] == s.queue;
  }

  /** Once its work is done, the item of a waiting thread is out of reach of the queue and of the CPU's thread. */
  lemma DoneIsUntouched(run: seq<State>, n: nat, t: Thread)
    requires IsRun(run) && n < |run| && At(run[n], t).Waiting?
    ensures var i := At(run[n], t).item;
            && i in run[n].items
            && (run[n].items[i].done ==>
                  && run[n].first != Some(i) && run[n].last != Some(i) && !Holding(run[n].cpu, i)
                  && forall j :: j in run[n].queue ==> j in run[n].items && run[n].items[j].next != Some(i))
  {
    RunKeeps(run, n);
    var s := run[n];
    var i := At(s, t).item;
    assert PcOk(At(s, t), s.items[i]);
    match s.lock {
      case Worker(u) => assert !At(s, u).Outside? ==> PcOk(At(s, u), s.items[At(s, u).item]);
      case _ =>
    }
    forall j | j in s.queue && s.items[i].done ensures s.items[j].next != Some(i) {
      var k: nat :| k < |s.queue| && s.queue[k] == j;
      assert LinkOk(s.items, s.queue, k, Tail(s));
    }
  }

  lemma StepOf(run: seq<State>, i: nat) returns (step: Step)
    requires IsRun(run) && i + 1 < |run|
    ensures Enabled(run[i], step) && run[i + 1] == Do(run[i], step)
  {
    hide Do, Enabled;
    assert Next(run[i], run[i + 1]);
    step :| Enabled(run[i], step) && run[i + 1] == Do(run[i], step);
  }

  /** The work of an item has run. */
  ghost predicate HasRun(s: State, i: Item)
    requires i in s.items
  {
    s.items[i].stage == Finished || (s.items[i].stage == Current && (s.cpu.Called? || s.cpu.Finishing?))
  }

  ghost predicate RanKnown(s: State) {
    forall i :: i in s.items && HasRun(s, i) ==> s.items[i].ticket in s.ran
  }

  lemma RanStep(s: State, step: Step)
    requires Stages(s) && RanKnown(s) && Enabled(s, step) && !Do(s, step).bad
    ensures RanKnown(Do(s, step))
  {
    var s' := Do(s, step);
    forall i | i in s'.items && HasRun(s', i) ensures s'.items[i].ticket in s'.ran {
      if step == Call && i == s.cpu.item {
        assert s'.ran[|s.ran|] == s'.items[i].ticket;
      } else if step == Complete && i == s.cpu.item {
        assert HasRun(s, i);
      } else if i in s.items {
        assert s'.items[i].ticket == s.items[i].ticket;
      }
    }
  }

  lemma {:induction false} RunRan(run: seq<State>, i: nat)
    requires IsRun(run) && i < |run|
    ensures RanKnown(run[i])
  {
    if i > 0 {
      hide IsRun, Do, Enabled, RanKnown;
      RunRan(run, i - 1);
      RunKeeps(run, i - 1);
      RunKeeps(run, i);
      var step := StepOf(run, i - 1);
      hide Threads, Mutex, Stages, Listed, Fifo;
      RanStep(run[i - 1], step);
    }
  }

  /** run_on_cpu returns only after its work has run: a waiting thread sees done set only then. */
  lemma DoneMeansRan(run: seq<State>, i: nat, t: Thread)
    requires IsRun(run) && i < |run| && At(run[i], t).Waiting?
    ensures var k := At(run[i], t).item;
            k in run[i].items && (run[i].items[k].done ==> run[i].items[k].ticket in run[i].ran)
  {
    RunRan(run, i);
    RunKeeps(run, i);
    assert PcOk(At(run[i], t), run[i].items[At(run[i], t).item]);
  }

  /** Once the queue is empty, the CPU idle and the mutex free, every waiting thread sees done set, and no item is left
      allocated that async_run_on_cpu has queued. */
  lemma QuietMeansDone(run: seq<State>, i: nat)
    requires IsRun(run) && i < |run| && run[i].first == None && run[i].cpu == Idle && run[i].lock == Free
    ensures forall t: Thread :: At(run[i], t).Waiting? ==>
              At(run[i], t).item in run[i].items && run[i].items[At(run[i], t).item].done
    ensures forall k :: k in run[i].items && run[i].items[k].free ==> run[i].items[k].stage == Building
  {
    RunKeeps(run, i);
    var s := run[i];
    forall t: Thread | At(s, t).Waiting? ensures At(s, t).item in s.items && s.items[At(s, t).item].done {
      assert PcOk(At(s, t), s.items[At(s, t).item]);
    }
  }

  /** run_on_cpu does not return before its work has run, and then nothing of its item is left; async_run_on_cpu returns
      once its item is queued. */
  lemma ReturnsAfterRun(run: seq<State>, i: nat, t: Thread)
    requires IsRun(run) && i + 1 < |run| && !At(run[i], t).Outside? && At(run[i + 1], t).Outside?
    ensures var k := At(run[i], t).item;
            && k in run[i].items
            && (!run[i].items[k].free ==> run[i].items[k].ticket in run[i].ran && k !in run[i + 1].items)
            && (run[i].items[k].free ==> k in run[i].queue)
  {
    RunRan(run, i);
    RunKeeps(run, i);
    var step := StepOf(run, i);
    OthersStay(run[i], step);
    assert PcOk(At(run[i], t), run[i].items[At(run[i], t).item]);
  }

  lemma RunThen(run: seq<State>, step: Step) returns (run': seq<State>)
    requires IsRun(run) && Enabled(run[|run| - 1], step)
    ensures IsRun(run') && run' != [] && run'[|run'| - 1] == Do(run[|run| - 1], step)
  {
    hide Do, Enabled;
    var s, s' := run[|run| - 1], Do(run[|run| - 1], step);
    assert Next(s, s');
    run' := run + [s'];
  }

  /** One item, one thread. */
  function Scene(first: Option<Item>, last: Option<Item>, i: Item, w: Work, lock: Holder, pc: Pc, cpu: Consumer,
                 queue: seq<Item>, enqueued: seq<Ticket>, ran: seq<Ticket>): State {
    State(first, last, map[i := w], lock, map[0 := pc], cpu, false, queue, enqueued, ran)
  }

  /** A run in which run_on_cpu queues its work, the CPU runs it, and run_on_cpu returns. */
  lemma WorkIsRun(i: Item, ticket: Ticket) returns (run: seq<State>)
    ensures IsRun(run) && run != []
    ensures run[|run| - 1] == State(None, None, map[], Free, map[0 := Outside], Idle, false, [], [ticket], [ticket])
  {
    run := WorkIsTaken(i, ticket);
    hide IsRun;
    run := RunThen(run, UnlockCpu);
    run := RunThen(run, Call);
    var cur := Work(None, false, false, ticket, Current);
    assert run[|run| - 1] == Scene(None, None, i, cur, Free, Waiting(i), Called(i), [], [ticket], [ticket]);
    run := RunThen(run, Relock);
    run := RunThen(run, Complete);
    var fin := Work(None, true, false, ticket, Finished);
    assert run[|run| - 1] == Scene(None, None, i, fin, Cpu, Waiting(i), Loop, [], [ticket], [ticket]);
    run := RunThen(run, EndLoop);
    run := RunThen(run, Return(0));
    assert map[i := fin] - {i} == map[];
  }

  lemma WorkIsTaken(i: Item, ticket: Ticket) returns (run: seq<State>)
    ensures IsRun(run) && run != []
    ensures run[|run| - 1] == Scene(None, None, i, Work(None, false, false, ticket, Current), Cpu, Waiting(i), Took(i),
                                    [], [ticket], [])
  {
    run := WorkIsQueued(i, ticket);
    hide IsRun;
    run := RunThen(run, Peek);
    run := RunThen(run, LockCpu);
    var w := Work(None, false, false, ticket, Queued);
    assert run[|run| - 1] == Scene(Some(i), Some(i), i, w, Cpu, Waiting(i), Loop, [i], [ticket], []);
    run := RunThen(run, Take);
    assert [i][1..] == [];
  }

  lemma WorkIsQueued(i: Item, ticket: Ticket) returns (run: seq<State>)
    ensures IsRun(run) && run != []
    ensures run[|run| - 1] == Scene(Some(i), Some(i), i, Work(None, false, false, ticket, Queued), Free, Waiting(i),
                                    Idle, [i], [ticket], [])
  {
    run := [Init()];
    var new' := Work(None, false, false, ticket, Building);
    run := RunThen(run, Begin(0, i, new'));
    hide IsRun;
    run := RunThen(run, Lock(0));
    run := RunThen(run, Link(0));
    assert run[|run| - 1] == Scene(Some(i), None, i, new', Worker(0), Linked(i), Idle, [], [], []);
    run := RunThen(run, SetLast(0));
    run := RunThen(run, Fill(0));
    var w := Work(None, false, false, ticket, Queued);
    assert run[|run| - 1] == Scene(Some(i), Some(i), i, w, Worker(0), Filled(i), Idle, [i], [ticket], []);
    run := RunThen(run, Unlock(0));
  }
}
