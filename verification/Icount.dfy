/** The instruction counter: budgets, refills, expiry and folding back (qemu/cpus.c, qemu/cpu-exec.c).
    Generated code is taken to subtract the size of a block from the decrementer only when it fits. */
module Icount {
  import opened Common
  import opened Arithmetic

  const INT32_MAX: int := 0x7FFF_FFFF

  /** The counters of a CPU: icount_decr, whose upper half flags an interrupt, and icount_extra. */
  datatype Counter = Counter(low: nat, high: bool, extra: nat)

  /** cpu_icount_to_ns */
  function ToNs(icount: int, shift: nat): int {
    icount * Pow2(shift)
  }

  /** qemu_icount_round */
  function Round(count: nat, shift: nat): nat {
    (count + Pow2(shift) - 1) / Pow2(shift)
  }

  /** Rounding covers the time asked for, by less than one unit more. */
  lemma RoundCovers(count: nat, shift: nat)
    ensures count <= ToNs(Round(count, shift), shift) < count + Pow2(shift)
  {
    var p, q := Pow2(shift), Round(count, shift);
    assert count + p - 1 == q * p + (count + p - 1) % p;
  }

  /** The clipping in tcg_get_icount_limit. */
  function Clip(deadline: int): nat {
    if deadline < 0 || deadline > INT32_MAX then INT32_MAX else deadline
  }

  lemma ToNsMonotone(a: int, b: int, shift: nat)
    requires a <= b
    ensures ToNs(a, shift) <= ToNs(b, shift)
  {
    var p := Pow2(shift);
    assert (b - a) * p >= 0;
  }

  class Timers {
    const shift: nat
    var qemuIcount: int
    var cpus: map<nat, Counter>
    var current: Option<nat>
    /** Instructions executed, altogether and before the current slice; what the slice may execute. */
    ghost var executed: nat
    ghost var base: nat
    ghost var budget: nat

    ghost predicate Valid()
      reads this
    {
      && (forall c :: c in cpus ==> cpus[c].low <= 0xFFFF)
      && (forall c :: c in cpus && Some(c) != current ==> cpus[c].low == 0 && cpus[c].extra == 0)
      && (current.Some? ==> current.value in cpus)
      && qemuIcount == executed + Left()
      && (current.Some? ==> base + budget == executed + Left())
    }

    ghost function Left(): nat
      reads this
    {
      if current.Some? && current.value in cpus then cpus[current.value].low + cpus[current.value].extra else 0
    }

    constructor (shift: nat, cpus: set<nat>)
      ensures Valid() && current == None && executed == 0 && this.shift == shift && this.cpus.Keys == cpus
    {
      this.shift := shift;
      qemuIcount, current, executed, base, budget := 0, None, 0, 0, 0;
      this.cpus := map c | c in cpus :: Counter(0, false, 0);
    }

    /** cpu_get_icount_raw, where I/O is allowed: the number of instructions executed. */
    method GetIcountRaw() returns (icount: int)
      requires Valid()
      ensures icount == executed
    {
      icount := qemuIcount;
      if current.Some? {
        icount := icount - (cpus[current.value].low + cpus[current.value].extra);
      }
    }

    /** The budget of tcg_cpu_exec; `replay` is the number of instructions when a recording is played. */
    method Begin(c: nat, deadline: int, replay: Option<nat>)
      requires Valid() && current == None && c in cpus
      modifies this
      ensures Valid() && current == Some(c) && executed == old(executed) && base == executed
      ensures budget == if replay.Some? then replay.value else Round(Clip(deadline), shift)
      ensures replay == None ==> ToNs(budget, shift) < Clip(deadline) + Pow2(shift)
      ensures cpus.Keys == old(cpus).Keys && cpus[c].high == old(cpus)[c].high
      ensures Left() == budget && (cpus[c].low == 0xFFFF || cpus[c].extra == 0)
    {
      qemuIcount := qemuIcount - (cpus[c].low + cpus[c].extra);
      var count := if replay.Some? then replay.value else Round(Clip(deadline), shift);
      RoundCovers(Clip(deadline), shift);
      qemuIcount := qemuIcount + count;
      var decr := if count > 0xFFFF then 0xFFFF else count;
      cpus := cpus[c := cpus[c].(low := decr, extra := count - decr)];
      current := Some(c);
      base, budget := executed, count;
    }

    /** The head of a translated block of `n` instructions, and the block if its instructions are left. A block
        that is left after `done` of them has its count restored by cpu_restore_state_from_tb. */
    method ExecTb(n: nat, done: nat) returns (expired: bool)
      requires Valid() && current.Some? && done <= n
      modifies this`cpus, this`executed
      ensures Valid() && cpus.Keys == old(cpus).Keys
      ensures expired <==> old(cpus)[current.value].high || old(cpus)[current.value].low < n
      ensures expired ==> cpus == old(cpus) && executed == old(executed)
      ensures !expired ==>
                && executed == old(executed) + done && cpus[current.value].extra == old(cpus)[current.value].extra
                && cpus[current.value].high == old(cpus)[current.value].high
    {
      var k := cpus[current.value];
      expired := k.high || k.low < n;
      if !expired {
        var low := k.low - n;
        if done < n {
          low := low + n;
          low := low - done;
        }
        cpus := cpus[current.value := k.(low := low)];
        executed := executed + done;
      }
    }

    /** TB_EXIT_ICOUNT_EXPIRED in cpu_loop_exec_tb. A block without caching executes `n` of the instructions left. */
    method Expired(n: nat) returns (leave: bool)
      requires Valid() && current.Some? && n <= cpus[current.value].low
      modifies this`cpus, this`executed
      ensures Valid() && cpus.Keys == old(cpus).Keys
      ensures leave <==> old(cpus)[current.value].high || old(cpus)[current.value].extra == 0
      ensures !leave ==> executed == old(executed) && cpus[current.value].low > 0 && Left() == old(Left())
      ensures !leave ==> !cpus[current.value].high && cpus[current.value].extra <= old(cpus)[current.value].extra
      ensures !leave && old(cpus)[current.value].low < 0xFFFF ==>
                cpus[current.value].extra < old(cpus)[current.value].extra
      ensures !leave ==> cpus[current.value].low == 0xFFFF || cpus[current.value].extra == 0
      ensures leave ==> executed == old(executed) + if old(cpus)[current.value].high then 0 else n
    {
      var k := cpus[current.value];
      // As a signed word, the decrementer is negative when its upper half is set.
      var insnsLeft: int := if k.high then -1 else k.low;
      if k.extra != 0 && insnsLeft >= 0 {
        var extra := k.extra + insnsLeft;
        var refill := if extra < 0xFFFF then extra else 0xFFFF;
        cpus := cpus[current.value := k.(low := refill, extra := extra - refill)];
        return false;
      }
      if insnsLeft > 0 {
        cpus := cpus[current.value := k.(low := k.low - n)];
        executed := executed + n;
      }
      return true;
    }

    /** tcg_handle_interrupt: an interrupt is raised and flagged in the upper half of the decrementer. */
    method Interrupt(c: nat)
      requires Valid() && c in cpus
      modifies this`cpus
      ensures Valid() && cpus.Keys == old(cpus).Keys && cpus[c].high && executed == old(executed)
      ensures Left() == old(Left()) && forall d :: d in cpus && d != c ==> cpus[d] == old(cpus)[d]
    {
      cpus := cpus[c := cpus[c].(high := true)];
    }

    /** The end of tcg_cpu_exec: what was not executed is taken back. */
    method Fold()
      requires Valid() && current.Some?
      modifies this
      ensures Valid() && current == None && qemuIcount == executed == old(executed) && cpus.Keys == old(cpus).Keys
      ensures cpus[old(current).value] == Counter(0, false, 0)
    {
      var c := current.value;
      qemuIcount := qemuIcount - (cpus[c].low + cpus[c].extra);
      cpus := cpus[c := Counter(0, false, 0)];
      current := None;
    }

    lemma Spent()
      requires Valid() && current.Some?
      ensures executed - base <= budget
    {
    }

    /** A block that comes up in the execution loop: it is tried again after every refill. */
    method RunBlock(c: nat, n: nat, done: nat, uncached: nat) returns (leave: bool)
      requires Valid() && current == Some(c) && n <= MAX_INSNS
      modifies this`cpus, this`executed
      ensures Valid() && cpus.Keys == old(cpus).Keys
      ensures leave <==> old(cpus)[c].high || old(Left()) < n
      ensures executed == old(executed) + BlockRuns(n, done, uncached, old(Left()), old(cpus)[c].high)
      ensures !leave ==> !cpus[c].high
    {
      ghost var left := Left();
      while true
        invariant Valid() && cpus.Keys == old(cpus).Keys && executed == old(executed)
        invariant Left() == left && cpus[c].high == old(cpus)[c].high
        decreases cpus[c].extra
      {
        var expired := ExecTb(n, if done < n then done else n);
        if !expired {
          return false;
        }
        var low := cpus[c].low;
        leave := Expired(if uncached < low then uncached else low);
        if leave {
          return;
        }
      }
    }

    /** One turn of the execution loop. */
    method Turn(c: nat, event: Event) returns (leave: bool)
      requires Valid() && current == Some(c) && (event.Block? ==> event.n <= MAX_INSNS)
      modifies this`cpus, this`executed
      ensures Valid() && cpus.Keys == old(cpus).Keys
      ensures event.Raise? ==>
                !leave && executed == old(executed) && (cpus[c].high <==> old(cpus)[c].high || event.cpu == c)
      ensures event.Block? ==>
                && executed
                   == old(executed) + BlockRuns(event.n, event.done, event.uncached, old(Left()), old(cpus)[c].high)
                && (leave <==> old(cpus)[c].high || old(Left()) < event.n) && (!leave ==> !cpus[c].high)
    {
      leave := false;
      match event {
        case Block(n, done, uncached) => leave := RunBlock(c, n, done, uncached);
        case Raise(cpu) =>
          if cpu in cpus {
            Interrupt(cpu);
          }
      }
    }

    /** tcg_cpu_exec, for any blocks that come up and any interrupts. */
    method TcgCpuExec(c: nat, deadline: int, replay: Option<nat>, events: seq<Event>)
      requires Valid() && current == None && c in cpus
      requires forall i :: 0 <= i < |events| && events[i].Block? ==> events[i].n <= MAX_INSNS
      modifies this
      ensures Valid() && current == None && cpus.Keys == old(cpus).Keys && qemuIcount == executed
      ensures executed == old(executed) + Ran(events, c, if replay.Some? then replay.value
                                                         else Round(Clip(deadline), shift), old(cpus)[c].high)
      ensures replay.Some? ==> executed - old(executed) <= replay.value
      ensures replay == None && 0 <= deadline <= 0x7FFF_FFFF ==>
                (executed - old(executed)) * Pow2(shift) < deadline + Pow2(shift)
      ensures replay == None ==> (executed - old(executed)) * Pow2(shift) < 0x7FFF_FFFF + Pow2(shift)
    {
      hide Pow2, Round, Clip, Valid, BlockRuns, ToNs, Ran;
      ClipMeans(deadline);
      Begin(c, deadline, replay);
      Slice(c, events);
      Spent();
      SpentTime(executed - base, budget, shift);
      Fold();
    }

    /** cpu_exec: events come up until a block does not fit or meets an interrupt. */
    method Slice(c: nat, events: seq<Event>)
      requires Valid() && current == Some(c)
      requires forall i :: 0 <= i < |events| && events[i].Block? ==> events[i].n <= MAX_INSNS
      modifies this`cpus, this`executed
      ensures Valid() && cpus.Keys == old(cpus).Keys
      ensures executed == old(executed) + Ran(events, c, old(Left()), old(cpus)[c].high)
    {
      hide Valid, BlockRuns, Ran;
      LeftIs();
      ghost var left, high := Left(), cpus[c].high;
      var i: nat := 0;
      var leave := false;
      while i < |events| && !leave
        invariant i <= |events| && Valid() && cpus.Keys == old(cpus).Keys
        invariant Ran(events, c, left, high)
               == executed - old(executed) + if leave then 0 else Ran(events[i..], c, Left(), cpus[c].high)
      {
        LeftIs();
        RanStep(events[i..], c, Left(), cpus[c].high);
        leave := Turn(c, events[i]);
        LeftIs();
        assert events[i..][1..] == events[i + 1..];
        i := i + 1;
      }
      if !leave {
        RanNone(c, Left(), cpus[c].high);
      }
    }

    /** What is left is what the slice may still execute. */
    lemma LeftIs()
      requires Valid() && current.Some?
      ensures Left() == base + budget - executed && current.value in cpus
    {
    }
  }

  lemma ClipMeans(deadline: int)
    ensures 0 <= deadline <= 0x7FFF_FFFF ==> Clip(deadline) == deadline
    ensures Clip(deadline) <= 0x7FFF_FFFF
  {
  }

  lemma SpentTime(n: int, budget: int, shift: nat)
    requires n <= budget
    ensures n * Pow2(shift) <= ToNs(budget, shift)
  {
    hide Pow2;
    ToNsMonotone(n, budget, shift);
  }

  /** A block of `n` instructions that is left after `done` of them, or `uncached` of which run if it comes too
      late; or an interrupt. */
  datatype Event = Block(n: nat, done: nat, uncached: nat) | Raise(cpu: nat)

  /** CF_COUNT_MASK: the translator makes no longer blocks. */
  const MAX_INSNS := 0x7FFF

  function Min(a: nat, b: nat): nat { if a < b then a else b }

  /** How many instructions of a block run when `left` may, and an interrupt is flagged or not. */
  function BlockRuns(n: nat, done: nat, uncached: nat, left: nat, high: bool): nat {
    if high then 0 else if n <= left then Min(done, n) else Min(uncached, left)
  }

  /** How many instructions a slice with `left` of them runs: block by block until one does not fit or an interrupt is
      flagged. */
  function Ran(events: seq<Event>, c: nat, left: nat, high: bool): nat {
    if events == [] then 0
    else
      match events[0]
      case Raise(cpu) => Ran(events[1..], c, left, high || cpu == c)
      case Block(n, done, uncached) =>
        if high || left < n then BlockRuns(n, done, uncached, left, high)
        else Min(done, n) + Ran(events[1..], c, left - Min(done, n), high)
  }

  lemma RanNone(c: nat, left: nat, high: bool)
    ensures Ran([], c, left, high) == 0
  {
  }

  lemma RanStep(events: seq<Event>, c: nat, left: nat, high: bool)
    requires events != []
    ensures var e, rest := events[0], events[1..];
            match e
            case Raise(cpu) => Ran(events, c, left, high) == Ran(rest, c, left, high || cpu == c)
            case Block(n, done, uncached) =>
              var r := BlockRuns(n, done, uncached, left, high);
              && r <= left
              && Ran(events, c, left, high) == r + if high || left < n then 0 else Ran(rest, c, left - r, high)
  {
  }

  function Sum(events: seq<Event>): nat {
    if events == [] then 0 else Sum(events[1..]) + if events[0].Block? then events[0].n else 0
  }

  /** A slice that is long enough, and that no interrupt of its CPU cuts short, runs all its blocks to their ends. */
  lemma {:induction false} RanAll(events: seq<Event>, c: nat, left: nat)
    requires Sum(events) <= left
    requires forall i :: 0 <= i < |events| ==> events[i] != Raise(c)
    requires forall i :: 0 <= i < |events| && events[i].Block? ==> events[i].done == events[i].n
    ensures Ran(events, c, left, false) == Sum(events)
  {
    if events != [] {
      assert forall i :: 0 <= i < |events[1..]| ==> events[1..][i] == events[i + 1];
      RanAll(events[1..], c, if events[0].Block? then left - events[0].n else left);
    }
  }

  /** After an interrupt of its CPU, a slice runs nothing more. */
  lemma {:induction false} RanFlagged(events: seq<Event>, c: nat, left: nat)
    ensures Ran(events, c, left, true) == 0
  {
    if events != [] && events[0].Raise? {
      RanFlagged(events[1..], c, left);
    }
  }

  /** A slice that is too short for its blocks, and that no interrupt cuts shorter, is used up to the last instruction:
      the block that does not fit runs as far as it can. */
  lemma {:induction false} RanToTheEnd(events: seq<Event>, c: nat, left: nat)
    requires left < Sum(events)
    requires forall i :: 0 <= i < |events| ==> events[i] != Raise(c)
    requires forall i :: 0 <= i < |events| && events[i].Block? ==> events[i].done == events[i].uncached == events[i].n
    ensures Ran(events, c, left, false) == left
  {
    assert events != [];
    assert forall i :: 0 <= i < |events[1..]| ==> events[1..][i] == events[i + 1];
    if events[0].Raise? {
      RanToTheEnd(events[1..], c, left);
    } else if events[0].n <= left {
      RanToTheEnd(events[1..], c, left - events[0].n);
    }
  }
}
