/** The bottom halves of an event loop and the walks over them (qemu/async.c): aio_bh_new,
    qemu_bh_delete and aio_bh_poll, whose callbacks may create and delete bottom halves and poll
    again. A walk follows live next pointers; deleted ones are freed when the outermost walk ends. */
module BhList {
  import opened Common
  import opened HandlerList

  /** A QEMUBH; `birth` is the time it was created. */
  datatype Bh = Bh(deleted: bool, birth: nat)

  /** aio_bh_poll inside the callback of the last of `visited`, with `next` already read. */
  datatype BhWalk = BhWalk(next: Option<Id>, since: nat, visited: set<Id>)

  /** `walks` are the nested calls of aio_bh_poll, innermost first; walking_bh is their number. */
  datatype BhState = BhState(bhs: map<Id, Bh>, list: seq<Id>, walks: seq<BhWalk>, clock: nat, calls: seq<(Id, nat)>)

  /** A visit finds the bottom half scheduled or not. */
  datatype BhStep = Create(b: Id) | Mark(b: Id) | Begin | Visit(scheduled: bool) | End

  function Unmarked(bhs: map<Id, Bh>, list: seq<Id>): seq<Id> {
    if list == [] then []
    else if list[0] in bhs && bhs[list[0]].deleted then Unmarked(bhs, list[1..])
    else [list[0]] + Unmarked(bhs, list[1..])
  }

  /** The state after the innermost walk visits the bottom half `b`. */
  function Visited(s: BhState, b: Id, scheduled: bool): BhState
    requires s.walks != []
  {
    var w := s.walks[0];
    s.(walks := [BhWalk(Next(s.list, b), w.since, w.visited + {b})] + s.walks[1..],
       calls := if scheduled && b in s.bhs && !s.bhs[b].deleted then s.calls + [(b, s.bhs[b].birth)] else s.calls)
  }

  ghost predicate BhSteps(s: BhState, s': BhState, step: BhStep) {
    match step
    case Create(b) =>
      b !in s.bhs && s' == s.(bhs := s.bhs[b := Bh(false, s.clock)], list := [b] + s.list, clock := s.clock + 1)
    case Mark(b) =>
      b in s.bhs && s' == s.(bhs := s.bhs[b := s.bhs[b].(deleted := true)])
    case Begin =>
      s' == s.(walks := [BhWalk(First(s.list), s.clock, {})] + s.walks)
    case Visit(scheduled) =>
      s.walks != [] && s.walks[0].next.Some? && s' == Visited(s, s.walks[0].next.value, scheduled)
    case End =>
      && s.walks != [] && s.walks[0].next == None
      && s' == if |s.walks| == 1
               then BhState(map b | b in s.bhs && !s.bhs[b].deleted :: s.bhs[b], Unmarked(s.bhs, s.list), [], s.clock,
                            s.calls)
               else s.(walks := s.walks[1..])
  }

  ghost predicate CanBhStep(s: BhState, s': BhState) { exists step :: BhSteps(s, s', step) }

  ghost predicate IsBhRun(run: seq<BhState>) {
    && run != [] && run[0] == BhState(map[], [], [], 0, [])
    && forall i :: 0 <= i < |run| - 1 ==> CanBhStep(run[i], run[i + 1])
  }

  ghost predicate BhListOk(s: BhState) {
    && Distinct(s.list) && (forall b :: b in s.bhs <==> b in s.list)
    && (forall b :: b in s.bhs ==> s.bhs[b].birth < s.clock)
  }

  /** The rest of the walk is older than the walk, and what is older but not in it was visited. */
  ghost predicate BhWalkOk(s: BhState, w: BhWalk) {
    && w.since <= s.clock && (w.next.Some? ==> w.next.value in s.list)
    && var rest := if w.next.Some? then From(s.list, w.next.value) else [];
       && (forall b :: b in rest && b in s.bhs ==> s.bhs[b].birth < w.since)
       && (forall b :: b in s.bhs && b !in rest && s.bhs[b].birth < w.since ==> b in w.visited)
  }

  ghost predicate BhInv(s: BhState) {
    BhListOk(s) && forall i :: 0 <= i < |s.walks| ==> BhWalkOk(s, s.walks[i])
  }

  lemma {:induction false} UnmarkedIs(bhs: map<Id, Bh>, list: seq<Id>)
    requires Distinct(list)
    ensures Distinct(Unmarked(bhs, list))
    ensures forall b :: b in Unmarked(bhs, list) <==> b in list && !(b in bhs && bhs[b].deleted)
  {
    if list != [] {
      UnmarkedIs(bhs, list[1..]);
      assert list == [list[0]] + list[1..];
      assert list[0] !in list[1..];
      var rest := Unmarked(bhs, list[1..]);
      assert list[0] !in rest;
    }
  }

  lemma CreateKeeps(s: BhState, s': BhState, b: Id)
    requires BhInv(s) && BhSteps(s, s', Create(b))
    ensures BhInv(s')
  {
    CreateList(s, s', b);
    hide BhListOk, BhWalkOk;
    forall i | 0 <= i < |s'.walks| ensures BhWalkOk(s', s'.walks[i]) {
      assert BhWalkOk(s, s.walks[i]);
      CreateWalk(s, s', b, s.walks[i]);
    }
  }

  lemma CreateList(s: BhState, s': BhState, b: Id)
    requires BhListOk(s) && BhSteps(s, s', Create(b))
    ensures BhListOk(s')
  {
  }

  lemma CreateWalk(s: BhState, s': BhState, b: Id, w: BhWalk)
    requires BhListOk(s) && BhSteps(s, s', Create(b)) && BhWalkOk(s, w)
    ensures BhWalkOk(s', w)
  {
    assert s'.list[1..] == s.list;
    if w.next.Some? {
      assert From(s'.list, w.next.value) == From(s.list, w.next.value);
      FromIn(s.list, w.next.value);
    }
  }

  lemma BhMarkKeeps(s: BhState, s': BhState, b: Id)
    requires BhInv(s) && BhSteps(s, s', Mark(b))
    ensures BhInv(s')
  {
    forall i | 0 <= i < |s'.walks| ensures BhWalkOk(s', s'.walks[i]) {
      assert BhWalkOk(s, s.walks[i]);
    }
  }

  /** Walks depend on the list and its bottom halves alone. */
  lemma BhWalkSame(s: BhState, s': BhState, w: BhWalk)
    requires s'.list == s.list && s'.bhs == s.bhs && s'.clock == s.clock && BhWalkOk(s, w)
    ensures BhWalkOk(s', w)
  {
  }

  lemma WalkKeeps(s: BhState, s': BhState, step: BhStep)
    requires BhInv(s) && BhSteps(s, s', step) && (step.Begin? || step.Visit?)
    ensures BhInv(s')
  {
    hide BhWalkOk;
    if step.Begin? {
      BeginWalk(s);
    } else {
      VisitWalk(s, s.walks[0].next.value);
    }
    forall i | 0 <= i < |s'.walks| ensures BhWalkOk(s', s'.walks[i]) {
      if i > 0 {
        assert step.Begin? ==> s'.walks[i] == s.walks[i - 1];
        assert step.Visit? ==> s'.walks[i] == s.walks[i];
      }
      BhWalkSame(s, s', s'.walks[i]);
    }
  }

  lemma BeginWalk(s: BhState)
    requires BhListOk(s)
    ensures BhWalkOk(s, BhWalk(First(s.list), s.clock, {}))
  {
  }

  lemma VisitWalk(s: BhState, b: Id)
    requires BhInv(s) && s.walks != [] && s.walks[0].next == Some(b)
    ensures BhWalkOk(s, BhWalk(Next(s.list, b), s.walks[0].since, s.walks[0].visited + {b}))
  {
    assert BhWalkOk(s, s.walks[0]);
    FromNext(s.list, b);
    FromIn(s.list, b);
    var rest := From(s.list, b);
    assert rest == [b] + rest[1..];
  }

  lemma EndKeeps(s: BhState, s': BhState)
    requires BhInv(s) && BhSteps(s, s', End)
    ensures BhInv(s')
  {
    if |s.walks| == 1 {
      UnmarkedIs(s.bhs, s.list);
    } else {
      forall i | 0 <= i < |s'.walks| ensures BhWalkOk(s', s'.walks[i]) {
        BhWalkSame(s, s', s.walks[i + 1]);
      }
    }
  }

  lemma {:induction false} BhRunKeeps(run: seq<BhState>, i: nat)
    requires IsBhRun(run) && i < |run|
    ensures BhInv(run[i])
  {
    if i > 0 {
      BhRunKeeps(run, i - 1);
      assert CanBhStep(run[i - 1], run[i - 1 + 1]);
      var step :| BhSteps(run[i - 1], run[i], step);
      match step
      case Create(b) => CreateKeeps(run[i - 1], run[i], b);
      case Mark(b) => BhMarkKeeps(run[i - 1], run[i], b);
      case Begin => WalkKeeps(run[i - 1], run[i], step);
      case Visit(_) => WalkKeeps(run[i - 1], run[i], step);
      case End => EndKeeps(run[i - 1], run[i]);
    }
  }

  /** In every run, at every depth of nested polls, the bottom half a walk goes to next is allocated
      and was there when the walk began; at its end the walk has visited every such bottom half
      that is still there. */
  lemma BottomHalvesSafe(run: seq<BhState>, i: nat, k: nat)
    requires IsBhRun(run) && i < |run| && k < |run[i].walks|
    ensures var s := run[i]; var w := s.walks[k];
            && (w.next.Some? ==> w.next.value in s.bhs && s.bhs[w.next.value].birth < w.since)
            && (w.next == None ==> forall b :: b in s.bhs && s.bhs[b].birth < w.since ==> b in w.visited)
  {
    BhRunKeeps(run, i);
    var s := run[i];
    assert BhWalkOk(s, s.walks[k]);
    if s.walks[k].next.Some? {
      FromIn(s.list, s.walks[k].next.value);
    }
  }

  /** The bottom half created as `b` at time `birth` was deleted, and maybe freed. */
  ghost predicate BhGone(s: BhState, b: Id, birth: nat) {
    birth < s.clock && (b in s.bhs && s.bhs[b].birth == birth ==> s.bhs[b].deleted)
  }

  lemma BhGoneStays(s: BhState, s': BhState, step: BhStep, b: Id, birth: nat)
    requires BhGone(s, b, birth) && BhSteps(s, s', step)
    ensures BhGone(s', b, birth) && NoCall(s.calls, s'.calls, (b, birth))
  {
  }

  /** Nothing is called after its deletion: a bottom half that was deleted, or freed, stays so for the
      rest of the run, and is not among the later calls. */
  lemma {:induction false} BhNeverCalledAgain(run: seq<BhState>, i: nat, j: nat, b: Id, birth: nat)
    requires IsBhRun(run) && i <= j < |run| && BhGone(run[i], b, birth)
    ensures BhGone(run[j], b, birth) && NoCall(run[i].calls, run[j].calls, (b, birth))
    decreases j - i
  {
    hide BhSteps, BhGone, NoCall;
    if i == j {
      NoCallYet(run[i].calls, (b, birth));
    } else {
      BhNeverCalledAgain(run, i, j - 1, b, birth);
      assert CanBhStep(run[j - 1], run[j - 1 + 1]);
      var step :| BhSteps(run[j - 1], run[j], step);
      BhGoneStays(run[j - 1], run[j], step, b, birth);
      NoCallThen(run[i].calls, run[j - 1].calls, run[j].calls, (b, birth));
    }
  }

  /** qemu_bh_delete makes a bottom half one that is gone. */
  lemma MarkedIsGone(run: seq<BhState>, i: nat, b: Id)
    requires IsBhRun(run) && i + 1 < |run| && b in run[i].bhs && BhSteps(run[i], run[i + 1], Mark(b))
    ensures BhGone(run[i + 1], b, run[i].bhs[b].birth)
  {
    BhRunKeeps(run, i);
  }

  lemma BhStepOf(run: seq<BhState>, i: nat) returns (step: BhStep)
    requires IsBhRun(run) && i + 1 < |run|
    ensures BhSteps(run[i], run[i + 1], step)
  {
    hide BhSteps;
    assert CanBhStep(run[i], run[i + 1]);
    step :| BhSteps(run[i], run[i + 1], step);
  }

  lemma BhFreedStep(s: BhState, s': BhState, step: BhStep, b: Id)
    requires BhSteps(s, s', step) && b in s.bhs
    ensures b !in s'.bhs <==> s.bhs[b].deleted && |s.walks| == 1 && s'.walks == []
  {
  }

  /** A bottom half is freed exactly when the outermost walk ends and it has been deleted. */
  lemma BhFreedExactly(run: seq<BhState>, i: nat, b: Id)
    requires IsBhRun(run) && i + 1 < |run| && b in run[i].bhs
    ensures b !in run[i + 1].bhs <==> run[i].bhs[b].deleted && |run[i].walks| == 1 && run[i + 1].walks == []
  {
    hide IsBhRun, BhSteps;
    var step := BhStepOf(run, i);
    BhFreedStep(run[i], run[i + 1], step, b);
  }

  /** A scheduled bottom half that a walk comes to is called, whatever walk it is and whatever was created since. */
  lemma VisitedIsCalled(run: seq<BhState>, i: nat, b: Id)
    requires IsBhRun(run) && i + 1 < |run| && BhSteps(run[i], run[i + 1], Visit(true))
    requires run[i].walks[0].next == Some(b)
    ensures b in run[i].bhs
    ensures !run[i].bhs[b].deleted ==> run[i + 1].calls == run[i].calls + [(b, run[i].bhs[b].birth)]
  {
    BottomHalvesSafe(run, i, 0);
  }

  /** A run in which a bottom half is created, called, deleted by its own callback, and freed when the walk ends. */
  lemma BottomHalfIsCalled(b: Id) returns (run: seq<BhState>)
    ensures IsBhRun(run) && run[|run| - 1] == BhState(map[], [], [], 1, [(b, 0)])
  {
    var live, dead := map[b := Bh(false, 0)], map[b := Bh(true, 0)];
    assert live[b := live[b].(deleted := true)] == dead;
    assert From([b], b) == [b] && Next([b], b) == None && {} + {b} == {b} && Unmarked(dead, [b]) == [];
    var s0 := BhState(map[], [], [], 0, []);
    var s1 := BhState(live, [b], [], 1, []);
    var s2 := BhState(live, [b], [BhWalk(Some(b), 1, {})], 1, []);
    var s3 := BhState(live, [b], [BhWalk(None, 1, {b})], 1, [(b, 0)]);
    var s4 := BhState(dead, [b], [BhWalk(None, 1, {b})], 1, [(b, 0)]);
    var s5 := BhState(map[], [], [], 1, [(b, 0)]);
    assert BhSteps(s0, s1, Create(b));
    assert BhSteps(s1, s2, Begin);
    assert BhSteps(s2, s3, Visit(true));
    assert BhSteps(s3, s4, Mark(b));
    assert BhSteps(s4, s5, End);
    hide BhSteps;
    assert CanBhStep(s0, s1) && CanBhStep(s1, s2) && CanBhStep(s2, s3) && CanBhStep(s3, s4) && CanBhStep(s4, s5);
    run := [s0, s1, s2, s3, s4, s5];
  }
}
