/** The file descriptor handlers of an event loop and the walks over them (qemu/aio-posix.c):
    aio_set_fd_handler may be called from callbacks, at any depth of nested polls. A walk follows
    the live list; nodes are freed only when no walk can be at them. */
module HandlerList {
  import opened Common

  type Id = nat
  type Walk = nat

  /** An AioHandler; `birth` is the time it was created. */
  datatype Handler = Handler(fd: int, deleted: bool, birth: nat)

  datatype Frame =
    /** aio_poll between filling and reading `nodes`; walking_handlers is raised. */
    | Polling(nodes: seq<Id>)
    /** aio_dispatch at node `cur`, maybe inside one of its callbacks; walking_handlers is raised. */
    | Visiting(cur: Id, since: nat, visited: set<Id>)

  /** The one walk that may be between two nodes. No callback runs there. */
  datatype Active = Nobody | Between(cur: Option<Id>, since: nat, visited: set<Id>)

  datatype State = State(
    nodes: map<Id, Handler>,
    list: seq<Id>,
    walking: int,
    frames: map<Walk, Frame>,
    active: Active,
    clock: nat,
    /** The nodes whose callbacks were run, with their births, since memory is used again. */
    calls: seq<(Id, nat)>)

  ghost predicate Init(s: State) {
    s.nodes == map[] && s.list == [] && s.walking == 0 && s.frames == map[] && s.active == Nobody && s.calls == []
  }

  /** The list from `c` on. */
  function From(list: seq<Id>, c: Id): seq<Id> {
    if list == [] then [] else if list[0] == c then list else From(list[1..], c)
  }

  /** QLIST_NEXT */
  function Next(list: seq<Id>, c: Id): Option<Id> {
    var rest := From(list, c);
    if |rest| > 1 then Some(rest[1]) else None
  }

  function First(list: seq<Id>): Option<Id> { if list == [] then None else Some(list[0]) }

  /** QLIST_REMOVE */
  function Remove(list: seq<Id>, x: Id): seq<Id> {
    if list == [] then [] else if list[0] == x then list[1..] else [list[0]] + Remove(list[1..], x)
  }

  /** find_aio_handler finds `n` for `fd`. */
  ghost predicate Finds(s: State, fd: int, n: Id) {
    n in s.list && n in s.nodes && s.nodes[n].fd == fd && !s.nodes[n].deleted
  }

  datatype Step =
    | Add(fd: int, n: Id) | Del(n: Id)
    | BeginPoll(w: Walk, targets: seq<Id>) | EndPoll(w: Walk)
    | Enter(w: Walk) | Call(w: Walk) | Leave(w: Walk) | Finish

  function Free(s: State, n: Id): State {
    s.(list := Remove(s.list, n), nodes := s.nodes - {n})
  }

  /** The state after the walk `w` leaves node `c`. */
  function Left(s: State, w: Walk, c: Id, since: nat, visited: set<Id>): State {
    var s1 := s.(walking := s.walking - 1, frames := s.frames - {w},
                 active := Between(Next(s.list, c), since, visited + {c}));
    if s1.walking == 0 && c in s.nodes && s.nodes[c].deleted then Free(s1, c) else s1
  }

  ghost predicate Steps(s: State, s': State, step: Step) {
    match step
    case Add(fd, n) =>
      // aio_set_fd_handler with a handler, for a descriptor that has none
      && s.active == Nobody && n !in s.nodes && (forall m :: !Finds(s, fd, m))
      && s' == s.(nodes := s.nodes[n := Handler(fd, false, s.clock)], list := [n] + s.list, clock := s.clock + 1)
    case Del(n) =>
      // aio_set_fd_handler without a handler
      && s.active == Nobody && n in s.nodes && Finds(s, s.nodes[n].fd, n)
      && s' == if s.walking != 0 then s.(nodes := s.nodes[n := s.nodes[n].(deleted := true)]) else Free(s, n)
    case BeginPoll(w, targets) =>
      && s.active == Nobody && w !in s.frames
      && (forall n :: n in targets ==> n in s.list && n in s.nodes && !s.nodes[n].deleted)
      && s' == s.(walking := s.walking + 1, frames := s.frames[w := Polling(targets)])
    case EndPoll(w) =>
      && s.active == Nobody && w in s.frames && s.frames[w].Polling?
      && s' == s.(walking := s.walking - 1, frames := s.frames - {w}, active := Between(First(s.list), s.clock, {}))
    case Enter(w) =>
      && s.active.Between? && s.active.cur.Some? && w !in s.frames
      && s' == s.(walking := s.walking + 1, active := Nobody,
                  frames := s.frames[w := Visiting(s.active.cur.value, s.active.since, s.active.visited)])
    case Call(w) =>
      && s.active == Nobody && w in s.frames && s.frames[w].Visiting?
      && s.frames[w].cur in s.nodes && !s.nodes[s.frames[w].cur].deleted
      && s' == s.(calls := s.calls + [(s.frames[w].cur, s.nodes[s.frames[w].cur].birth)])
    case Leave(w) =>
      && s.active == Nobody && w in s.frames && s.frames[w].Visiting?
      && s' == Left(s, w, s.frames[w].cur, s.frames[w].since, s.frames[w].visited)
    case Finish =>
      s.active.Between? && s.active.cur == None && s' == s.(active := Nobody)
  }

  ghost predicate CanStep(s: State, s': State) { exists step :: Steps(s, s', step) }

  ghost predicate IsRun(run: seq<State>) {
    run != [] && Init(run[0]) && forall i :: 0 <= i < |run| - 1 ==> CanStep(run[i], run[i + 1])
  }

  ghost predicate Distinct(list: seq<Id>) {
    forall i, j :: 0 <= i < j < |list| ==> list[i] != list[j]
  }

  /** The rest of a walk that stands at `cur` consists of nodes older than the walk, and the
      older nodes before it were visited. */
  ghost predicate WalkOk(s: State, cur: Option<Id>, since: nat, visited: set<Id>) {
    && since <= s.clock
    && (cur.Some? ==> cur.value in s.list)
    && var rest := if cur.Some? then From(s.list, cur.value) else [];
       && (forall n :: n in rest && n in s.nodes ==> s.nodes[n].birth < since)
       && (forall n :: n in s.nodes && n !in rest && s.nodes[n].birth < since ==> n in visited)
  }

  ghost predicate FrameOk(s: State, f: Frame) {
    match f
    case Polling(nodes) => forall n :: n in nodes ==> n in s.nodes
    case Visiting(cur, since, visited) => WalkOk(s, Some(cur), since, visited)
  }

  ghost predicate ListOk(s: State) {
    && Distinct(s.list) && (forall n :: n in s.nodes <==> n in s.list)
    && (forall n :: n in s.nodes ==> s.nodes[n].birth < s.clock)
  }

  ghost predicate OnePerFd(s: State) {
    forall m, n :: m in s.nodes && n in s.nodes && m != n && !s.nodes[m].deleted && !s.nodes[n].deleted ==>
      s.nodes[m].fd != s.nodes[n].fd
  }

  ghost predicate WalksOk(s: State) {
    && s.walking == |s.frames|
    && (forall w :: w in s.frames ==> FrameOk(s, s.frames[w]))
    && (s.active.Between? ==> WalkOk(s, s.active.cur, s.active.since, s.active.visited))
  }

  ghost predicate Inv(s: State) {
    ListOk(s) && OnePerFd(s) && WalksOk(s)
  }

  lemma {:induction false} FromIn(list: seq<Id>, c: Id)
    ensures c in list ==> From(list, c) != [] && From(list, c)[0] == c
    ensures forall n :: n in From(list, c) ==> n in list
    ensures Distinct(list) ==> Distinct(From(list, c))
  {
    if list != [] && list[0] != c {
      FromIn(list[1..], c);
      assert list == [list[0]] + list[1..];
    }
  }

  lemma {:induction false} RemoveIs(list: seq<Id>, x: Id)
    requires Distinct(list)
    ensures Distinct(Remove(list, x))
    ensures forall n :: n in Remove(list, x) <==> n in list && n != x
  {
    if list != [] {
      assert list == [list[0]] + list[1..];
      if list[0] != x {
        RemoveIs(list[1..], x);
        var r := Remove(list[1..], x);
        assert Remove(list, x) == [list[0]] + r;
        assert list[0] !in r;
      } else {
        assert x !in list[1..];
      }
    }
  }

  /** Removing another node leaves the rest of a walk as it was, without that node. */
  lemma {:induction false} FromRemove(list: seq<Id>, x: Id, c: Id)
    requires Distinct(list) && x != c && c in list
    ensures From(Remove(list, x), c) == Remove(From(list, c), x)
  {
    assert list == [list[0]] + list[1..];
    if list[0] == x {
      assert x !in list[1..];
      FromIn(list[1..], c);
      RemoveAbsent(From(list[1..], c), x);
    } else if list[0] != c {
      FromRemove(list[1..], x, c);
    }
  }

  lemma {:induction false} RemoveAbsent(list: seq<Id>, x: Id)
    requires x !in list
    ensures Remove(list, x) == list
  {
    if list != [] {
      RemoveAbsent(list[1..], x);
    }
  }

  /** The rest after the next node is the rest without the current one. */
  lemma {:induction false} FromNext(list: seq<Id>, c: Id)
    requires Distinct(list) && c in list
    ensures var rest := From(list, c); var next := Next(list, c);
            if next.Some? then next.value in list && next.value != c
              && From(list, next.value) == rest[1..] else rest == [c]
  {
    assert list == [list[0]] + list[1..];
    if list[0] == c {
      if |list| > 1 {
        assert list[1] != list[0];
      }
    } else {
      FromNext(list[1..], c);
      FromIn(list[1..], c);
      assert Next(list, c) == Next(list[1..], c);
    }
  }

  /** The nodes and walks when a walk over the whole list starts. */
  lemma FreshWalk(s: State)
    requires ListOk(s)
    ensures WalkOk(s, First(s.list), s.clock, {})
  {
  }

  lemma AddKeeps(s: State, s': State, fd: int, n: Id)
    requires Inv(s) && Steps(s, s', Add(fd, n))
    ensures Inv(s')
  {
    forall w | w in s'.frames ensures FrameOk(s', s'.frames[w]) {
      assert FrameOk(s, s.frames[w]);
      if s.frames[w].Visiting? {
        AddKeepsWalk(s, s', fd, n, s.frames[w].cur, s.frames[w].since, s.frames[w].visited);
      }
    }
    forall m | m in s'.nodes && m != n && !s'.nodes[m].deleted ensures s'.nodes[m].fd != fd {
      assert !Finds(s, fd, m);
    }
  }

  lemma AddKeepsWalk(s: State, s': State, fd: int, n: Id, c: Id, since: nat, visited: set<Id>)
    requires Inv(s) && Steps(s, s', Add(fd, n)) && WalkOk(s, Some(c), since, visited)
    ensures WalkOk(s', Some(c), since, visited)
  {
    assert s'.list[1..] == s.list;
    assert From(s'.list, c) == From(s.list, c);
    FromIn(s.list, c);
  }

  lemma DelKeeps(s: State, s': State, n: Id)
    requires Inv(s) && Steps(s, s', Del(n))
    ensures Inv(s')
  {
    if s.walking != 0 {
      MarkKeeps(s, n);
    } else {
      FreeKeeps(s, n);
    }
  }

  lemma MarkKeeps(s: State, n: Id)
    requires Inv(s) && n in s.nodes && s.active == Nobody
    ensures Inv(s.(nodes := s.nodes[n := s.nodes[n].(deleted := true)]))
  {
    var s' := s.(nodes := s.nodes[n := s.nodes[n].(deleted := true)]);
    forall w | w in s'.frames ensures FrameOk(s', s'.frames[w]) {
      assert FrameOk(s, s.frames[w]);
    }
  }

  lemma FreeKeeps(s: State, n: Id)
    requires Inv(s) && n in s.nodes && s.active == Nobody && s.walking == 0
    ensures Inv(Free(s, n))
  {
    RemoveIs(s.list, n);
  }

  /** Walks depend on the list and its nodes alone. */
  lemma FrameSame(s: State, s': State, f: Frame)
    requires s'.list == s.list && s'.nodes == s.nodes && s'.clock == s.clock && FrameOk(s, f)
    ensures FrameOk(s', f)
  {
  }

  /** A step that changes neither the list nor its nodes keeps everything but the walks' own counts. */
  lemma FramesSame(s: State, s': State)
    requires ListOk(s) && OnePerFd(s) && s'.list == s.list && s'.nodes == s.nodes && s'.clock == s.clock
    requires forall w :: w in s'.frames ==> FrameOk(s, s'.frames[w])
    requires s'.active.Between? ==> WalkOk(s, s'.active.cur, s'.active.since, s'.active.visited)
    requires s'.walking == |s'.frames|
    ensures Inv(s')
  {
    forall w | w in s'.frames ensures FrameOk(s', s'.frames[w]) {
      FrameSame(s, s', s'.frames[w]);
    }
  }

  lemma BeginPollKeeps(s: State, s': State, w: Walk, targets: seq<Id>)
    requires Inv(s) && Steps(s, s', BeginPoll(w, targets))
    ensures Inv(s')
  {
    hide WalkOk, ListOk, OnePerFd;
    assert s'.frames.Keys == s.frames.Keys + {w};
    assert FrameOk(s, s'.frames[w]);
    FramesSame(s, s');
  }

  lemma EndPollKeeps(s: State, s': State, w: Walk)
    requires Inv(s) && Steps(s, s', EndPoll(w))
    ensures Inv(s')
  {
    hide WalkOk, ListOk, OnePerFd, FrameOk;
    FreshWalk(s);
    assert s'.frames.Keys == s.frames.Keys - {w};
    FramesSame(s, s');
  }

  lemma EnterKeeps(s: State, s': State, w: Walk)
    requires Inv(s) && Steps(s, s', Enter(w))
    ensures Inv(s')
  {
    hide WalkOk, ListOk, OnePerFd;
    assert s'.frames.Keys == s.frames.Keys + {w};
    assert FrameOk(s, s'.frames[w]);
    FramesSame(s, s');
  }

  lemma LeaveKeeps(s: State, s': State, w: Walk)
    requires Inv(s) && Steps(s, s', Leave(w))
    ensures Inv(s')
  {
    var f := s.frames[w];
    assert FrameOk(s, f);
    var s1 := s.(walking := s.walking - 1, frames := s.frames - {w},
                 active := Between(Next(s.list, f.cur), f.since, f.visited + {f.cur}));
    assert s1.frames.Keys == s.frames.Keys - {w};
    LeaveWalk(s, s1, f.cur, f.since, f.visited);
    forall v | v in s1.frames ensures FrameOk(s1, s1.frames[v]) {
      assert FrameOk(s, s.frames[v]);
    }
    assert Inv(s1);
    if s' != s1 {
      RemoveIs(s.list, f.cur);
      FreeWalk(s1, f.cur);
    }
  }

  /** Moving on to the next node. */
  lemma LeaveWalk(s: State, s1: State, c: Id, since: nat, visited: set<Id>)
    requires ListOk(s) && WalkOk(s, Some(c), since, visited)
    requires s1.list == s.list && s1.nodes == s.nodes && s1.clock == s.clock
    ensures WalkOk(s1, Next(s.list, c), since, visited + {c})
    ensures Next(s.list, c) != Some(c)
    ensures Next(s.list, c).Some? ==> c !in From(s.list, Next(s.list, c).value)
  {
    FromNext(s.list, c);
    FromIn(s.list, c);
    var rest := From(s.list, c);
    assert rest == [c] + rest[1..];
  }

  /** Freeing the node just left does not disturb the rest of the walk. */
  lemma FreeWalk(s: State, c: Id)
    requires Inv(s) && s.active.Between? && c in s.list && c in s.active.visited
    requires s.active.cur.Some? ==> s.active.cur.value != c && c !in From(s.list, s.active.cur.value)
    ensures WalkOk(Free(s, c), s.active.cur, s.active.since, s.active.visited)
  {
    RemoveIs(s.list, c);
    if s.active.cur.Some? {
      FromRemove(s.list, c, s.active.cur.value);
      RemoveAbsent(From(s.list, s.active.cur.value), c);
    }
  }

  lemma StepKeeps(s: State, s': State, step: Step)
    requires Inv(s) && Steps(s, s', step)
    ensures Inv(s')
  {
    match step
    case Add(fd, n) => AddKeeps(s, s', fd, n);
    case Del(n) => DelKeeps(s, s', n);
    case BeginPoll(w, t) => BeginPollKeeps(s, s', w, t);
    case EndPoll(w) => EndPollKeeps(s, s', w);
    case Enter(w) => EnterKeeps(s, s', w);
    case Leave(w) => LeaveKeeps(s, s', w);
    case Call(w) => FramesSame(s, s');
    case Finish => FramesSame(s, s');
  }

  lemma {:induction false} RunKeeps(run: seq<State>, i: nat)
    requires IsRun(run) && i < |run|
    ensures Inv(run[i])
  {
    if i > 0 {
      RunKeeps(run, i - 1);
      assert CanStep(run[i - 1], run[i - 1 + 1]);
      var step :| Steps(run[i - 1], run[i], step);
      StepKeeps(run[i - 1], run[i], step);
    }
  }

  /** In every run, with any nesting of polls: no walk and no poll is at a freed node, walks only
      visit nodes that were there when they began, and no descriptor has two live handlers. */
  lemma HandlersSafe(run: seq<State>, i: nat)
    requires IsRun(run) && i < |run|
    ensures var s := run[i];
            && (forall w :: w in s.frames ==>
                  match s.frames[w]
                  case Polling(nodes) => forall n :: n in nodes ==> n in s.nodes
                  case Visiting(cur, since, visited) => cur in s.nodes && s.nodes[cur].birth < since)
            && (s.active.Between? && s.active.cur.Some? ==>
                  s.active.cur.value in s.nodes && s.nodes[s.active.cur.value].birth < s.active.since)
            && OnePerFd(s)
  {
    RunKeeps(run, i);
    var s := run[i];
    forall w | w in s.frames && s.frames[w].Visiting?
      ensures s.frames[w].cur in s.nodes && s.nodes[s.frames[w].cur].birth < s.frames[w].since
    {
      assert FrameOk(s, s.frames[w]);
      FromIn(s.list, s.frames[w].cur);
    }
    if s.active.Between? && s.active.cur.Some? {
      FromIn(s.list, s.active.cur.value);
    }
    forall w | w in s.frames && s.frames[w].Polling?
      ensures forall n :: n in s.frames[w].nodes ==> n in s.nodes
    {
      assert FrameOk(s, s.frames[w]);
    }
  }

  /** A walk that has come to the end has visited every node that was there when it began and still is. */
  lemma WalkComplete(run: seq<State>, i: nat, n: Id)
    requires IsRun(run) && i < |run|
    requires run[i].active.Between? && run[i].active.cur == None
    requires n in run[i].nodes && run[i].nodes[n].birth < run[i].active.since
    ensures n in run[i].active.visited
  {
    RunKeeps(run, i);
  }

  /** The handler created as `n` at time `birth` was deleted, and maybe freed. */
  ghost predicate Gone(s: State, n: Id, birth: nat) {
    birth < s.clock && (n in s.nodes && s.nodes[n].birth == birth ==> s.nodes[n].deleted)
  }

  /** `later` goes on from `before` without the call `c`. */
  ghost predicate NoCall(before: seq<(Id, nat)>, later: seq<(Id, nat)>, c: (Id, nat)) {
    before <= later && c !in later[|before|..]
  }

  lemma GoneStays(s: State, s': State, step: Step, n: Id, birth: nat)
    requires Gone(s, n, birth) && Steps(s, s', step)
    ensures Gone(s', n, birth) && NoCall(s.calls, s'.calls, (n, birth))
  {
  }

  lemma NoCallYet(a: seq<(Id, nat)>, c: (Id, nat))
    ensures NoCall(a, a, c)
  {
  }

  lemma NoCallThen(a: seq<(Id, nat)>, b: seq<(Id, nat)>, d: seq<(Id, nat)>, c: (Id, nat))
    requires NoCall(a, b, c) && NoCall(b, d, c)
    ensures NoCall(a, d, c)
  {
    assert d[|a|..] == b[|a|..] + d[|b|..];
  }

  /** Nothing is called after its deletion: a handler that was deleted, or freed, stays so for the rest
      of the run, and is not among the later calls. */
  lemma {:induction false} NeverCalledAgain(run: seq<State>, i: nat, j: nat, n: Id, birth: nat)
    requires IsRun(run) && i <= j < |run| && Gone(run[i], n, birth)
    ensures Gone(run[j], n, birth) && NoCall(run[i].calls, run[j].calls, (n, birth))
    decreases j - i
  {
    hide Steps, Gone, NoCall;
    if i == j {
      NoCallYet(run[i].calls, (n, birth));
    } else {
      NeverCalledAgain(run, i, j - 1, n, birth);
      assert CanStep(run[j - 1], run[j - 1 + 1]);
      var step :| Steps(run[j - 1], run[j], step);
      GoneStays(run[j - 1], run[j], step, n, birth);
      NoCallThen(run[i].calls, run[j - 1].calls, run[j].calls, (n, birth));
    }
  }

  /** aio_set_fd_handler without a handler makes the handler of the descriptor one that is gone. */
  lemma DeletedIsGone(run: seq<State>, i: nat, n: Id)
    requires IsRun(run) && i + 1 < |run| && n in run[i].nodes && Steps(run[i], run[i + 1], Del(n))
    ensures Gone(run[i + 1], n, run[i].nodes[n].birth)
  {
    RunKeeps(run, i);
  }

  // The deleted are freed.

  lemma StepOf(run: seq<State>, i: nat) returns (step: Step)
    requires IsRun(run) && i + 1 < |run|
    ensures Steps(run[i], run[i + 1], step)
  {
    hide Steps;
    assert CanStep(run[i], run[i + 1]);
    step :| Steps(run[i], run[i + 1], step);
  }

  /** Some walk leaves `n`, and no walk or poll is left that could still be at it. */
  ghost predicate LastLeaves(s: State, s': State, n: Id) {
    && s.active == Nobody && s'.active.Between? && |s.frames| == 1
    && exists w :: w in s.frames && s.frames[w].Visiting? && s.frames[w].cur == n
  }

  /** `n` is deleted while there is no walk or poll. */
  ghost predicate DeletedAtOnce(s: State, s': State, n: Id) {
    |s.frames| == 0 && n in s.nodes && Steps(s, s', Del(n))
  }

  lemma OneFrame(s: State, w: Walk, v: Walk)
    requires |s.frames| == 1 && w in s.frames && v in s.frames
    ensures w == v
  {
    var rest := s.frames.Keys - {w};
    assert |rest| == 0;
    assert v !in rest;
  }

  lemma LeaveFrees(s: State, s': State, w: Walk, n: Id)
    requires Inv(s) && Steps(s, s', Leave(w)) && n in s.nodes
    ensures n !in s'.nodes <==> s.nodes[n].deleted && LastLeaves(s, s', n)
  {
    hide ListOk, OnePerFd, FrameOk, WalkOk;
    if LastLeaves(s, s', n) {
      var v :| v in s.frames && s.frames[v].Visiting? && s.frames[v].cur == n;
      OneFrame(s, w, v);
    }
  }

  lemma FreedStep(s: State, s': State, step: Step, n: Id)
    requires Inv(s) && Steps(s, s', step) && n in s.nodes
    ensures n !in s'.nodes <==> (s.nodes[n].deleted && LastLeaves(s, s', n)) || DeletedAtOnce(s, s', n)
  {
    hide ListOk, OnePerFd, FrameOk, WalkOk;
    if step.Leave? {
      LeaveFrees(s, s', step.w, n);
      assert !DeletedAtOnce(s, s', n);
    } else if step.EndPoll? {
      EndPollLeavesNone(s, s', step.w, n);
    }
  }

  lemma EndPollLeavesNone(s: State, s': State, w: Walk, n: Id)
    requires Steps(s, s', EndPoll(w))
    ensures !LastLeaves(s, s', n)
  {
    if LastLeaves(s, s', n) {
      var v :| v in s.frames && s.frames[v].Visiting? && s.frames[v].cur == n;
      OneFrame(s, w, v);
    }
  }

  /** A handler is freed exactly when the last walk or poll leaves it and it has been deleted, or when it is deleted
      while there is none. */
  lemma FreedExactly(run: seq<State>, i: nat, n: Id)
    requires IsRun(run) && i + 1 < |run| && n in run[i].nodes
    ensures n !in run[i + 1].nodes <==>
              (run[i].nodes[n].deleted && LastLeaves(run[i], run[i + 1], n)) || DeletedAtOnce(run[i], run[i + 1], n)
  {
    hide Inv, Steps, LastLeaves, DeletedAtOnce;
    RunKeeps(run, i);
    var step := StepOf(run, i);
    FreedStep(run[i], run[i + 1], step, n);
  }

  /** The handler created as `n` at time `birth` is still there, deleted, and the only walk there is has yet to
      come to it. */
  ghost predicate ToBeFreed(s: State, n: Id, birth: nat) {
    && n in s.nodes && s.nodes[n].birth == birth && s.nodes[n].deleted
    && (s.active.Between? ==> |s.frames| == 0 && s.active.cur.Some? && n in From(s.list, s.active.cur.value))
    && (s.active == Nobody ==>
          exists w :: w in s.frames && s.frames[w].Visiting? && n in From(s.list, s.frames[w].cur))
  }

  ghost predicate Freed(s: State, n: Id, birth: nat) {
    birth < s.clock && (n in s.nodes ==> s.nodes[n].birth != birth)
  }

  lemma FreedStays(s: State, s': State, step: Step, n: Id, birth: nat)
    requires Freed(s, n, birth) && Steps(s, s', step)
    ensures Freed(s', n, birth)
  {
  }

  /** A walk that leaves a node ahead of `n` has `n` ahead still, also if the node is freed. */
  lemma StillAhead(list: seq<Id>, c: Id, n: Id)
    requires Distinct(list) && c in list && n != c && n in From(list, c)
    ensures Next(list, c).Some? && n in From(list, Next(list, c).value)
    ensures n in From(Remove(list, c), Next(list, c).value)
  {
    FromNext(list, c);
    FromIn(list, c);
    assert From(list, c) == [c] + From(list, c)[1..];
    var next := Next(list, c).value;
    FromRemove(list, c, next);
    FromIn(list, next);
    RemoveIs(From(list, next), c);
  }

  /** The only walk there is has `n` ahead. */
  lemma SoleWalk(s: State, w: Walk, n: Id, birth: nat)
    requires Inv(s) && ToBeFreed(s, n, birth) && s.active == Nobody && w in s.frames && |s.frames| == 1
    ensures s.frames[w].Visiting? && n in From(s.list, s.frames[w].cur) && s.frames[w].cur in s.list
    ensures Distinct(s.list) && s.walking == 1 && |s.frames - {w}| == 0 && birth < s.clock
  {
    hide From, OnePerFd;
    var v :| v in s.frames && s.frames[v].Visiting? && n in From(s.list, s.frames[v].cur);
    OneFrame(s, w, v);
    assert FrameOk(s, s.frames[w]);
    assert (s.frames - {w}).Keys == s.frames.Keys - {w};
  }

  lemma LeaveToBeFreed(s: State, s': State, w: Walk, n: Id, birth: nat)
    requires Inv(s) && Steps(s, s', Leave(w)) && ToBeFreed(s, n, birth) && |s.frames| == 1
    ensures ToBeFreed(s', n, birth) || Freed(s', n, birth)
  {
    hide Inv, From, Next, Remove;
    SoleWalk(s, w, n, birth);
    if s.frames[w].cur != n {
      StillAhead(s.list, s.frames[w].cur, n);
    }
  }

  lemma AddToBeFreed(s: State, s': State, fd: int, m: Id, n: Id, birth: nat)
    requires Inv(s) && Steps(s, s', Add(fd, m)) && ToBeFreed(s, n, birth)
    ensures ToBeFreed(s', n, birth)
  {
    var w :| w in s.frames && s.frames[w].Visiting? && n in From(s.list, s.frames[w].cur);
    assert FrameOk(s, s.frames[w]);
    assert s'.list[1..] == s.list;
    assert From(s'.list, s.frames[w].cur) == From(s.list, s.frames[w].cur);
  }

  lemma EnterToBeFreed(s: State, s': State, w: Walk, n: Id, birth: nat)
    requires Steps(s, s', Enter(w)) && ToBeFreed(s, n, birth)
    ensures ToBeFreed(s', n, birth)
  {
    assert w in s'.frames && s'.frames[w].Visiting? && n in From(s'.list, s'.frames[w].cur);
  }

  lemma SoloStep(s: State, s': State, step: Step, n: Id, birth: nat)
    requires Inv(s) && Steps(s, s', step) && ToBeFreed(s, n, birth) && |s.frames| <= 1 && |s'.frames| <= 1
    ensures ToBeFreed(s', n, birth) || Freed(s', n, birth)
  {
    match step
    case Add(fd, m) => AddToBeFreed(s, s', fd, m, n, birth);
    case Enter(w) => EnterToBeFreed(s, s', w, n, birth);
    case Leave(w) =>
      assert |s.frames| == 1;
      LeaveToBeFreed(s, s', w, n, birth);
    case Del(m) => DelToBeFreed(s, s', m, n, birth);
    case BeginPoll(w, t) => SecondFrame(s, s', w, t, n, birth);
    case EndPoll(w) =>
      var v :| v in s.frames && s.frames[v].Visiting? && n in From(s.list, s.frames[v].cur);
      OneFrame(s, w, v);
    case Call(w) =>
      var v :| v in s.frames && s.frames[v].Visiting? && n in From(s.list, s.frames[v].cur);
      assert v in s'.frames && n in From(s'.list, s'.frames[v].cur);
    case Finish =>
  }

  lemma SecondFrame(s: State, s': State, w: Walk, targets: seq<Id>, n: Id, birth: nat)
    requires Steps(s, s', BeginPoll(w, targets)) && ToBeFreed(s, n, birth)
    ensures |s'.frames| > 1
  {
    var v :| v in s.frames && s.frames[v].Visiting? && n in From(s.list, s.frames[v].cur);
    assert |s.frames.Keys - {v}| >= 0;
    assert s'.frames.Keys == s.frames.Keys + {w};
  }

  lemma DelToBeFreed(s: State, s': State, m: Id, n: Id, birth: nat)
    requires Inv(s) && Steps(s, s', Del(m)) && ToBeFreed(s, n, birth)
    ensures ToBeFreed(s', n, birth)
  {
    var w :| w in s.frames && s.frames[w].Visiting? && n in From(s.list, s.frames[w].cur);
    assert |s.frames| > 0;
    assert w in s'.frames && n in From(s'.list, s'.frames[w].cur);
  }

  /** A walk that no other poll or walk overlaps frees every handler that was deleted when it began: such a handler is
      gone when the walk has come to the end. */
  lemma {:induction false} SoloWalkFrees(run: seq<State>, i: nat, j: nat, n: Id, birth: nat)
    requires IsRun(run) && i <= j < |run|
    requires run[i].active == Between(First(run[i].list), run[i].clock, {})
    requires n in run[i].nodes && run[i].nodes[n].birth == birth && run[i].nodes[n].deleted
    requires forall k :: i <= k <= j ==> |run[k].frames| <= if run[k].active.Between? then 0 else 1
    ensures ToBeFreed(run[j], n, birth) || Freed(run[j], n, birth)
    ensures run[j].active.Between? && run[j].active.cur == None ==> Freed(run[j], n, birth)
    decreases j - i
  {
    hide IsRun, Inv, Steps, ToBeFreed, Freed;
    if i == j {
      RunKeeps(run, i);
      WalkStarts(run[i], n);
    } else {
      SoloWalkFrees(run, i, j - 1, n, birth);
      RunKeeps(run, j - 1);
      var step := StepOf(run, j - 1);
      if Freed(run[j - 1], n, birth) {
        FreedStays(run[j - 1], run[j], step, n, birth);
      } else {
        SoloStep(run[j - 1], run[j], step, n, birth);
      }
      if run[j].active.Between? && run[j].active.cur == None {
        EndsFreed(run[j], n, birth);
      }
    }
  }

  lemma WalkStarts(s: State, n: Id)
    requires Inv(s) && s.active.Between? && s.active.cur == First(s.list) && |s.frames| == 0
    requires n in s.nodes && s.nodes[n].deleted
    ensures ToBeFreed(s, n, s.nodes[n].birth) && s.list != []
  {
  }

  lemma EndsFreed(s: State, n: Id, birth: nat)
    requires s.active.Between? && s.active.cur == None
    ensures !ToBeFreed(s, n, birth)
  {
  }

  /** A callback that runs is that of the handler its walk is at. */
  lemma CallIsLogged(run: seq<State>, i: nat, w: Walk)
    requires IsRun(run) && i + 1 < |run| && Steps(run[i], run[i + 1], Call(w))
    ensures w in run[i].frames && run[i].frames[w].Visiting? && run[i].frames[w].cur in run[i].list
    ensures var c := run[i].frames[w].cur;
            c in run[i].nodes && run[i + 1].calls == run[i].calls + [(c, run[i].nodes[c].birth)]
  {
    RunKeeps(run, i);
  }

  // Handlers work.

  /** A handler that is added is found for its descriptor until it is deleted. */
  lemma {:induction false} AddedStays(run: seq<State>, i: nat, j: nat, fd: int, n: Id)
    requires IsRun(run) && i < j < |run| && Steps(run[i], run[i + 1], Add(fd, n))
    requires forall k: nat :: i < k < j ==> !Steps(run[k], run[k + 1], Del(n))
    ensures Finds(run[j], fd, n)
    decreases j - i
  {
    hide IsRun, Inv, Steps, Finds;
    if j > i + 1 {
      AddedStays(run, i, j - 1, fd, n);
      RunKeeps(run, j - 1);
      var step := StepOf(run, j - 1);
      assert !Steps(run[j - 1], run[j - 1 + 1], Del(n));
      FoundStays(run[j - 1], run[j], step, fd, n);
    } else {
      AddIsFound(run[i], run[i + 1], fd, n);
    }
  }

  lemma AddIsFound(s: State, s': State, fd: int, n: Id)
    requires Steps(s, s', Add(fd, n))
    ensures Finds(s', fd, n)
  {
  }

  lemma FoundStays(s: State, s': State, step: Step, fd: int, n: Id)
    requires Inv(s) && Steps(s, s', step) && Finds(s, fd, n) && step != Del(n)
    ensures Finds(s', fd, n)
  {
    hide OnePerFd, WalksOk;
    if s'.list != s.list && !step.Add? {
      RemoveIs(s.list, if step.Del? then step.n else s.frames[step.w].cur);
    }
  }

  lemma RunThen(run: seq<State>, s': State, step: Step) returns (run': seq<State>)
    requires IsRun(run) && Steps(run[|run| - 1], s', step)
    ensures IsRun(run') && run'[|run'| - 1] == s'
  {
    hide Steps;
    assert CanStep(run[|run| - 1], s');
    run' := run + [s'];
  }

  /** A run in which a handler is added, polled, called, deleted by its own callback, and freed when the walk
      leaves it. */
  lemma HandlerIsCalled(fd: int, n: Id) returns (run: seq<State>)
    ensures IsRun(run) && run[|run| - 1] == State(map[], [], 0, map[], Nobody, 1, [(n, 0)])
  {
    run := HandlerIsVisited(fd, n);
    hide IsRun;
    var calls := [(n, 0)];
    var live, dead := map[n := Handler(fd, false, 0)], map[n := Handler(fd, true, 0)];
    var at := map[0 := Visiting(n, 1, {})];
    assert live[n := live[n].(deleted := true)] == dead;
    assert at - {0} == map[] && dead - {n} == map[] && Remove([n], n) == [];
    assert From([n], n) == [n] && Next([n], n) == None && {} + {n} == {n};
    run := RunThen(run, State(live, [n], 1, at, Nobody, 1, calls), Call(0));
    run := RunThen(run, State(dead, [n], 1, at, Nobody, 1, calls), Del(n));
    run := RunThen(run, State(map[], [], 0, map[], Between(None, 1, {n}), 1, calls), Leave(0));
    run := RunThen(run, State(map[], [], 0, map[], Nobody, 1, calls), Finish);
  }

  lemma HandlerIsVisited(fd: int, n: Id) returns (run: seq<State>)
    ensures IsRun(run)
    ensures run[|run| - 1]
         == State(map[n := Handler(fd, false, 0)], [n], 1, map[0 := Visiting(n, 1, {})], Nobody, 1, [])
  {
    var live := map[n := Handler(fd, false, 0)];
    var polled: map<Walk, Frame> := map[0 := Polling([n])];
    assert polled - {0} == map[];
    run := [State(map[], [], 0, map[], Nobody, 0, [])];
    run := RunThen(run, State(live, [n], 0, map[], Nobody, 1, []), Add(fd, n));
    hide IsRun;
    run := RunThen(run, State(live, [n], 1, polled, Nobody, 1, []), BeginPoll(0, [n]));
    run := RunThen(run, State(live, [n], 0, map[], Between(Some(n), 1, {}), 1, []), EndPoll(0));
    run := RunThen(run, State(live, [n], 1, map[0 := Visiting(n, 1, {})], Nobody, 1, []), Enter(0));
  }
}
