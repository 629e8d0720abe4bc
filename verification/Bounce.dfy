/** The bounce buffer of address_space_map and the clients that wait for it (qemu/exec.c),
    as the interleaved steps of any number of activities. An activity stands for one use of the interface:
    a mapping from address_space_map to address_space_unmap, or one call that registers or unregisters a client. */
module Bounce {
  import opened Common

  type Thread = nat
  type Bh = nat

  /** Where a thread is. */
  datatype Pc =
    | Outside
    | Taken              // address_space_map found the buffer free
    | Mapped             // address_space_map has returned the buffer
    | Freed              // address_space_unmap has freed the memory
    | Released           // and then given up the buffer
    | Notifying          // in cpu_notify_map_clients_locked, with the lock
    | Registering(bh: Bh)     // cpu_register_map_client, with the lock
    | Registered         // the client is on the list
    | Unregistering(bh: Bh)   // cpu_unregister_map_client, with the lock
    | Leaving            // about to unlock

  /** `scheduled` counts the clients that were scheduled. */
  datatype State = State(
    inUse: bool, buffer: Option<Thread>, lock: Option<Thread>, clients: seq<Bh>, pcs: map<Thread, Pc>,
    scheduled: multiset<Bh>)

  function At(s: State, t: Thread): Pc {
    if t in s.pcs then s.pcs[t] else Outside
  }

  function Go(s: State, t: Thread, pc: Pc): State {
    s.(pcs := s.pcs[t := pc])
  }

  datatype Step =
    | Exchange       // atomic_xchg on in_use
    | Fill           // allocate and fill the buffer
    | Free           // write back and free it
    | GiveUp         // atomic_mb_set of in_use
    | LockToNotify
    | LockToRegister(client: Bh)
    | LockToUnregister(client: Bh)
    | Insert
    | ReadInUse
    | NotifyFirst
    | NotifyDone
    | Remove
    | Unlock

  predicate Enabled(s: State, t: Thread, step: Step) {
    match step
    case Exchange => At(s, t) == Outside
    case Fill => At(s, t) == Taken
    case Free => At(s, t) == Mapped
    case GiveUp => At(s, t) == Freed
    case LockToNotify => At(s, t) == Released && s.lock == None
    case LockToRegister(_) => At(s, t) == Outside && s.lock == None
    case LockToUnregister(_) => At(s, t) == Outside && s.lock == None
    case Insert => At(s, t).Registering?
    case ReadInUse => At(s, t) == Registered
    case NotifyFirst => At(s, t) == Notifying && s.clients != []
    case NotifyDone => At(s, t) == Notifying && s.clients == []
    case Remove => At(s, t).Unregistering?
    case Unlock => At(s, t) == Leaving
  }

  function Do(s: State, t: Thread, step: Step): State
    requires Enabled(s, t, step)
  {
    match step
    case Exchange => if s.inUse then s else Go(s.(inUse := true), t, Taken)
    case Fill => Go(s.(buffer := Some(t)), t, Mapped)
    case Free => Go(s.(buffer := None), t, Freed)
    case GiveUp => Go(s.(inUse := false), t, Released)
    case LockToNotify => Go(s.(lock := Some(t)), t, Notifying)
    case LockToRegister(bh) => Go(s.(lock := Some(t)), t, Registering(bh))
    case LockToUnregister(bh) => Go(s.(lock := Some(t)), t, Unregistering(bh))
    case Insert =>
      var bh := At(s, t).bh;
      Go(s.(clients := [bh] + s.clients), t, Registered)
    case ReadInUse => Go(s, t, if s.inUse then Leaving else Notifying)
    case NotifyFirst => s.(clients := s.clients[1..], scheduled := s.scheduled + multiset{s.clients[0]})
    case NotifyDone => Go(s, t, Leaving)
    case Remove =>
      var bh := At(s, t).bh;
      Go(if bh in s.clients then s.(clients := Without(s.clients, bh)) else s, t, Leaving)
    case Unlock => Go(s.(lock := None), t, Outside)
  }

  /** The list without the first client for `bh`. */
  function Without(clients: seq<Bh>, bh: Bh): seq<Bh>
    requires bh in clients
  {
    if clients[0] == bh then clients[1..] else [clients[0]] + Without(clients[1..], bh)
  }

  lemma {:induction false} WithoutCounts(clients: seq<Bh>, bh: Bh)
    requires bh in clients
    ensures multiset(Without(clients, bh)) + multiset{bh} == multiset(clients)
  {
    assert clients == [clients[0]] + clients[1..];
    if clients[0] != bh {
      WithoutCounts(clients[1..], bh);
    }
  }

  function Init(): State {
    State(false, None, None, [], map[], multiset{})
  }

  ghost predicate Next(s: State, s': State) {
    exists t, step :: Enabled(s, t, step) && s' == Do(s, t, step)
  }

  ghost predicate IsRun(run: seq<State>) {
    |run| > 0 && run[0] == Init() && forall i: nat :: i + 1 < |run| ==> Next(run[i], run[i + 1])
  }

  lemma StepOf(run: seq<State>, i: nat) returns (t: Thread, step: Step)
    requires IsRun(run) && i + 1 < |run|
    ensures Enabled(run[i], t, step) && run[i + 1] == Do(run[i], t, step)
  {
    hide Do, Enabled;
    assert Next(run[i], run[i + 1]);
    t, step :| Enabled(run[i], t, step) && run[i + 1] == Do(run[i], t, step);
  }

  /** The thread has the buffer. */
  predicate Holder(pc: Pc) {
    pc == Taken || pc == Mapped || pc == Freed
  }

  predicate Locker(pc: Pc) {
    pc.Notifying? || pc.Registering? || pc.Registered? || pc.Unregistering? || pc.Leaving?
  }

  ghost predicate Exclusive(s: State) {
    && (s.inUse <==> exists t :: Holder(At(s, t)))
    && (forall t, u :: Holder(At(s, t)) && Holder(At(s, u)) ==> t == u)
    && (s.buffer.Some? ==> At(s, s.buffer.value) == Mapped)
    && (forall t: Thread :: At(s, t) == Mapped ==> s.buffer == Some(t))
  }

  ghost predicate Locked(s: State) {
    forall t: Thread :: Locker(At(s, t)) <==> s.lock == Some(t)
  }

  /** While the buffer is free, someone is on the way to wake the clients. */
  ghost predicate NoneForgotten(s: State) {
    !s.inUse && s.clients != [] ==> exists t :: OnTheWay(At(s, t))
  }

  predicate OnTheWay(pc: Pc) {
    pc == Released || pc == Notifying || pc == Registered
  }

  ghost predicate Inv(s: State) {
    Exclusive(s) && Locked(s) && NoneForgotten(s)
  }

  lemma OthersStay(s: State, t: Thread, step: Step)
    requires Enabled(s, t, step)
    ensures forall u: Thread :: u != t ==> At(Do(s, t, step), u) == At(s, u)
  {
    hide Without;
  }

  lemma KeepsExclusive(s: State, t: Thread, step: Step)
    requires Inv(s) && Enabled(s, t, step)
    ensures Exclusive(Do(s, t, step))
  {
    KeepsHolder(s, t, step);
    KeepsBuffer(s, t, step);
    hide Inv, Do, Enabled, Holder, At;
  }

  lemma KeepsHolder(s: State, t: Thread, step: Step)
    requires Exclusive(s) && Enabled(s, t, step)
    ensures var s' := Do(s, t, step);
            && (s'.inUse <==> exists u :: Holder(At(s', u)))
            && (forall t, u :: Holder(At(s', t)) && Holder(At(s', u)) ==> t == u)
  {
    hide Without;
    var s' := Do(s, t, step);
    OthersStay(s, t, step);
    if Holder(At(s', t)) {
      assert exists u :: Holder(At(s', u));
    } else if s'.inUse {
      var u :| Holder(At(s, u));
      assert Holder(At(s', u));
    }
  }

  lemma KeepsBuffer(s: State, t: Thread, step: Step)
    requires Exclusive(s) && Enabled(s, t, step)
    ensures var s' := Do(s, t, step);
            && (s'.buffer.Some? ==> At(s', s'.buffer.value) == Mapped)
            && (forall t: Thread :: At(s', t) == Mapped ==> s'.buffer == Some(t))
  {
    hide Without;
    OthersStay(s, t, step);
  }

  lemma KeepsLocked(s: State, t: Thread, step: Step)
    requires Locked(s) && Enabled(s, t, step)
    ensures Locked(Do(s, t, step))
  {
    hide Without;
    var s' := Do(s, t, step);
    assert Locker(At(s, t)) <==> s.lock == Some(t);
    OthersStay(s, t, step);
  }

  lemma KeepsNoneForgotten(s: State, t: Thread, step: Step)
    requires Inv(s) && Enabled(s, t, step)
    ensures NoneForgotten(Do(s, t, step))
  {
    hide Without;
    var s' := Do(s, t, step);
    OthersStay(s, t, step);
    if !s'.inUse && s'.clients != [] {
      if OnTheWay(At(s', t)) {
      } else if !s.inUse && s.clients != [] {
        var u :| OnTheWay(At(s, u));
        assert u != t ==> OnTheWay(At(s', u));
      }
    }
  }

  lemma InitKeeps(run: seq<State>)
    requires IsRun(run)
    ensures Inv(run[0])
  {
  }

  lemma {:induction false} RunKeeps(run: seq<State>, i: nat)
    requires IsRun(run) && i < |run|
    ensures Inv(run[i])
  {
    hide IsRun, Exclusive, Locked, NoneForgotten, Do, Enabled;
    if i == 0 {
      InitKeeps(run);
    } else {
      RunKeeps(run, i - 1);
      var t, step := StepOf(run, i - 1);
      KeepsExclusive(run[i - 1], t, step);
      KeepsLocked(run[i - 1], t, step);
      KeepsNoneForgotten(run[i - 1], t, step);
    }
  }

  /** At most one activity has the buffer, at any time. */
  lemma OneHolder(run: seq<State>, i: nat, t: Thread, u: Thread)
    requires IsRun(run) && i < |run| && Holder(At(run[i], t)) && Holder(At(run[i], u))
    ensures t == u && run[i].inUse
  {
    RunKeeps(run, i);
  }

  /** While a client waits, the buffer is taken, or the lock is,
      or someone has released the buffer and still has to notify. */
  lemma ClientsWillBeNotified(run: seq<State>, i: nat)
    requires IsRun(run) && i < |run| && run[i].clients != [] && !run[i].inUse && run[i].lock == None
    ensures exists t :: At(run[i], t) == Released
  {
    RunKeeps(run, i);
    var t: Thread :| OnTheWay(At(run[i], t));
    assert Locker(At(run[i], t)) <==> run[i].lock == Some(t);
  }

  // Clients are accounted for.

  /** A call that registers `bh` has put it on the list. */
  ghost predicate Registers(s: State, s': State, bh: Bh) {
    exists t :: At(s, t) == Registering(bh) && At(s', t) == Registered
  }

  /** A call that unregisters `bh` is about to return. */
  ghost predicate Unregisters(s: State, s': State, bh: Bh) {
    exists t :: At(s, t) == Unregistering(bh) && At(s', t) == Leaving
  }

  ghost function Count(s: State, bh: Bh): nat { multiset(s.clients)[bh] }

  /** The number of times that `bh` was registered in the first `n` steps. */
  ghost function Registrations(run: seq<State>, n: nat, bh: Bh): nat
    requires n < |run|
  {
    if n == 0 then 0
    else Registrations(run, n - 1, bh) + if Registers(run[n - 1], run[n], bh) then 1 else 0
  }

  /** The number of times that `bh` was unregistered while it was waiting. */
  ghost function Removals(run: seq<State>, n: nat, bh: Bh): nat
    requires n < |run|
  {
    if n == 0 then 0
    else
      Removals(run, n - 1, bh) + if Unregisters(run[n - 1], run[n], bh) && Count(run[n - 1], bh) > 0 then 1 else 0
  }

  function Less(n: nat): nat { if n > 0 then n - 1 else 0 }

  /** What a step does to the waiting clients for `bh`, and to those scheduled. */
  ghost predicate Balanced(s: State, s': State, bh: Bh) {
    && (Registers(s, s', bh) ==> Count(s', bh) == Count(s, bh) + 1 && s'.scheduled[bh] == s.scheduled[bh])
    && (Unregisters(s, s', bh) ==>
          Count(s', bh) == Less(Count(s, bh)) && s'.scheduled[bh] == s.scheduled[bh])
    && (!Registers(s, s', bh) && !Unregisters(s, s', bh) ==>
          Count(s', bh) + s'.scheduled[bh] == Count(s, bh) + s.scheduled[bh])
    && s.scheduled[bh] <= s'.scheduled[bh]
  }

  /** What happens to the thread of the step tells whether it registers or unregisters. */
  lemma StepIs(s: State, t: Thread, step: Step, bh: Bh)
    requires Enabled(s, t, step)
    ensures Registers(s, Do(s, t, step), bh) <==> step == Insert && At(s, t).bh == bh
    ensures Unregisters(s, Do(s, t, step), bh) <==> step == Remove && At(s, t).bh == bh
  {
    hide Without;
    OthersStay(s, t, step);
    var s' := Do(s, t, step);
    assert At(s, t) == Registering(bh) && At(s', t) == Registered ==> Registers(s, s', bh);
    assert At(s, t) == Unregistering(bh) && At(s', t) == Leaving ==> Unregisters(s, s', bh);
  }

  lemma StepBalanced(s: State, t: Thread, step: Step, bh: Bh)
    requires Enabled(s, t, step)
    ensures Balanced(s, Do(s, t, step), bh)
  {
    StepIs(s, t, step, bh);
    hide Do, Enabled, Registers, Unregisters, Count;
    StepLedger(s, t, step, bh);
  }

  /** How a step moves clients for `bh`. */
  lemma StepLedger(s: State, t: Thread, step: Step, bh: Bh)
    requires Enabled(s, t, step)
    ensures var s' := Do(s, t, step);
            && s.scheduled[bh] <= s'.scheduled[bh]
            && (step == Insert && At(s, t).bh == bh ==>
                  Count(s', bh) == Count(s, bh) + 1 && s'.scheduled[bh] == s.scheduled[bh])
            && (step == Remove && At(s, t).bh == bh ==>
                  Count(s', bh) == Less(Count(s, bh)) && s'.scheduled[bh] == s.scheduled[bh])
            && (!(step == Insert && At(s, t).bh == bh) && !(step == Remove && At(s, t).bh == bh) ==>
                  Count(s', bh) + s'.scheduled[bh] == Count(s, bh) + s.scheduled[bh])
  {
    hide Without;
    if step == Insert {
      InsertCounts(s.clients, At(s, t).bh, bh);
    } else if step == NotifyFirst {
      NotifyCounts(s.clients, bh);
    } else if step == Remove {
      RemoveCounts(s.clients, At(s, t).bh, bh);
    }
  }

  lemma InsertCounts(clients: seq<Bh>, b: Bh, bh: Bh)
    ensures multiset([b] + clients)[bh] == multiset(clients)[bh] + if b == bh then 1 else 0
  {
  }

  lemma NotifyCounts(clients: seq<Bh>, bh: Bh)
    requires clients != []
    ensures multiset(clients[1..])[bh] + (if clients[0] == bh then 1 else 0) == multiset(clients)[bh]
  {
    assert clients == [clients[0]] + clients[1..];
  }

  lemma RemoveCounts(clients: seq<Bh>, b: Bh, bh: Bh)
    ensures b in clients ==>
              multiset(Without(clients, b))[bh] + (if b == bh then 1 else 0) == multiset(clients)[bh]
    ensures b !in clients ==> multiset(clients)[b] == 0
  {
    hide Without;
    if b in clients {
      WithoutCounts(clients, b);
    }
  }

  lemma RunBalanced(run: seq<State>, i: nat, bh: Bh)
    requires IsRun(run) && i + 1 < |run|
    ensures Balanced(run[i], run[i + 1], bh)
    ensures !(Registers(run[i], run[i + 1], bh) && Unregisters(run[i], run[i + 1], bh))
  {
    hide IsRun, Do, Enabled, Balanced, Registers, Unregisters;
    var t, step := StepOf(run, i);
    StepBalanced(run[i], t, step, bh);
    StepIs(run[i], t, step, bh);
  }

  /** Each time that a client registered, it still waits, was scheduled, or unregistered. */
  lemma {:induction false} Accounted(run: seq<State>, i: nat, bh: Bh)
    requires IsRun(run) && i < |run|
    ensures Registrations(run, i, bh) == Count(run[i], bh) + run[i].scheduled[bh] + Removals(run, i, bh)
  {
    if i > 0 {
      hide Registers, Unregisters, IsRun;
      Accounted(run, i - 1, bh);
      RunBalanced(run, i - 1, bh);
    }
  }

  /** Once everybody is outside, nobody waits: every registration was scheduled or unregistered. */
  lemma NothingLost(run: seq<State>, i: nat, bh: Bh)
    requires IsRun(run) && i < |run| && forall t: Thread :: At(run[i], t) == Outside
    ensures run[i].clients == [] && !run[i].inUse
    ensures Registrations(run, i, bh) == run[i].scheduled[bh] + Removals(run, i, bh)
  {
    RunKeeps(run, i);
    Accounted(run, i, bh);
    assert forall t: Thread :: !Locker(At(run[i], t)) && !Holder(At(run[i], t)) && !OnTheWay(At(run[i], t));
  }

  /** cpu_unregister_map_client takes one client for `bh` off the list, if there is one, and leaves the others. */
  lemma UnregisterRemoves(run: seq<State>, i: nat, bh: Bh)
    requires IsRun(run) && i + 1 < |run| && Unregisters(run[i], run[i + 1], bh)
    ensures multiset(run[i + 1].clients) == multiset(run[i].clients) - multiset{bh}
    ensures run[i + 1].scheduled == run[i].scheduled
  {
    hide IsRun, Without, Registers, Unregisters;
    var t, step := StepOf(run, i);
    StepIs(run[i], t, step, bh);
    if bh in run[i].clients {
      WithoutCounts(run[i].clients, bh);
    }
  }

  /** Without a new registration, no more clients for `bh` are scheduled than were waiting. */
  lemma {:induction false} OnlyWaiting(run: seq<State>, i: nat, j: nat, bh: Bh)
    requires IsRun(run) && i <= j < |run|
    requires forall k: nat :: i <= k < j ==> !Registers(run[k], run[k + 1], bh)
    ensures Count(run[j], bh) + run[j].scheduled[bh] <= Count(run[i], bh) + run[i].scheduled[bh]
    ensures run[i].scheduled[bh] <= run[j].scheduled[bh]
    decreases j - i
  {
    hide Registers, Unregisters, IsRun;
    if i < j {
      OnlyWaiting(run, i, j - 1, bh);
      assert !Registers(run[j - 1], run[j - 1 + 1], bh);
      RunBalanced(run, j - 1, bh);
    }
  }

  /** A client that was registered once is not scheduled after it has unregistered, until it registers again. */
  lemma SilentAfterUnregister(run: seq<State>, i: nat, j: nat, bh: Bh)
    requires IsRun(run) && i < j < |run| && Unregisters(run[i], run[i + 1], bh) && Count(run[i], bh) <= 1
    requires forall k: nat :: i < k < j ==> !Registers(run[k], run[k + 1], bh)
    ensures run[j].scheduled[bh] == run[i].scheduled[bh] && bh !in run[j].clients
  {
    hide Registers, Unregisters, IsRun;
    RunBalanced(run, i, bh);
    OnlyWaiting(run, i + 1, j, bh);
  }

  /** While the buffer is in use, a thread that registers a client schedules none. */
  lemma {:induction false} InUseStaysSilent(run: seq<State>, i: nat, j: nat, t: Thread)
    requires IsRun(run) && i <= j < |run| && At(run[i], t) == Registered
    requires forall k: nat :: i <= k <= j ==> run[k].inUse && run[k].lock == Some(t)
    ensures run[j].scheduled == run[i].scheduled && (At(run[j], t) == Registered || At(run[j], t) == Leaving)
    decreases j - i
  {
    hide IsRun, Do, Enabled, Exclusive, NoneForgotten, Locked;
    if i < j {
      InUseStaysSilent(run, i, j - 1, t);
      RunKeeps(run, j - 1);
      var u, step := StepOf(run, j - 1);
      SilentStep(run[j - 1], t, u, step);
    }
  }

  lemma SilentStep(s: State, t: Thread, u: Thread, step: Step)
    requires Locked(s) && s.inUse && s.lock == Some(t) && (At(s, t) == Registered || At(s, t) == Leaving)
    requires Enabled(s, u, step) && Do(s, u, step).lock == Some(t)
    ensures Do(s, u, step).scheduled == s.scheduled
    ensures At(Do(s, u, step), t) == Registered || At(Do(s, u, step), t) == Leaving
  {
    hide Without;
    OthersStay(s, u, step);
    assert Locker(At(s, u)) ==> u == t;
  }

  /** address_space_map gets the buffer exactly if nobody has it. */
  lemma MapTakesIfFree(run: seq<State>, i: nat, t: Thread)
    requires IsRun(run) && i < |run| && At(run[i], t) == Outside
    ensures Do(run[i], t, Exchange).inUse
    ensures At(Do(run[i], t, Exchange), t) == Taken <==> forall u: Thread :: !Holder(At(run[i], u))
  {
    RunKeeps(run, i);
  }

  lemma RunThen(run: seq<State>, t: Thread, step: Step) returns (run': seq<State>)
    requires IsRun(run) && Enabled(run[|run| - 1], t, step)
    ensures IsRun(run') && run' != [] && run'[|run'| - 1] == Do(run[|run| - 1], t, step)
  {
    hide Do, Enabled;
    var s, s' := run[|run| - 1], Do(run[|run| - 1], t, step);
    assert Next(s, s');
    run' := run + [s'];
  }

  function Scene(inUse: bool, buffer: Option<Thread>, lock: Option<Thread>, clients: seq<Bh>, holder: Pc, client: Pc,
                 scheduled: multiset<Bh>): State {
    State(inUse, buffer, lock, clients, map[1 := holder, 2 := client], scheduled)
  }

  /** A run in which a client finds the buffer in use, registers, and is scheduled when the buffer is released. */
  lemma ClientIsScheduled(bh: Bh) returns (run: seq<State>)
    ensures IsRun(run) && run != [] && run[|run| - 1] == Scene(false, None, None, [], Outside, Outside, multiset{bh})
  {
    run := BufferIsReleased(bh);
    hide IsRun;
    run := RunThen(run, 1, NotifyFirst);
    assert run[|run| - 1] == Scene(false, None, Some(1), [], Notifying, Outside, multiset{bh});
    run := RunThen(run, 1, NotifyDone);
    run := RunThen(run, 1, Unlock);
    assert run[|run| - 1] == Scene(false, None, None, [], Outside, Outside, multiset{bh});
  }

  lemma BufferIsReleased(bh: Bh) returns (run: seq<State>)
    ensures IsRun(run) && run != []
    ensures run[|run| - 1] == Scene(false, None, Some(1), [bh], Notifying, Outside, multiset{})
  {
    run := ClientWaits(bh);
    hide IsRun;
    run := RunThen(run, 1, Free);
    assert run[|run| - 1] == Scene(true, None, None, [bh], Freed, Outside, multiset{});
    run := RunThen(run, 1, GiveUp);
    assert run[|run| - 1] == Scene(false, None, None, [bh], Released, Outside, multiset{});
    run := RunThen(run, 1, LockToNotify);
  }

  lemma ClientWaits(bh: Bh) returns (run: seq<State>)
    ensures IsRun(run) && run != [] && run[|run| - 1] == Scene(true, Some(1), None, [bh], Mapped, Outside, multiset{})
  {
    run := [Init()];
    run := RunThen(run, 1, Exchange);
    hide IsRun;
    run := RunThen(run, 1, Fill);
    run := RunThen(run, 2, LockToRegister(bh));
    assert run[|run| - 1] == Scene(true, Some(1), Some(2), [], Mapped, Registering(bh), multiset{});
    run := RunThen(run, 2, Insert);
    assert run[|run| - 1] == Scene(true, Some(1), Some(2), [bh], Mapped, Registered, multiset{});
    run := RunThen(run, 2, ReadInUse);
    run := RunThen(run, 2, Unlock);
    assert run[|run| - 1] == Scene(true, Some(1), None, [bh], Mapped, Outside, multiset{});
  }
}
