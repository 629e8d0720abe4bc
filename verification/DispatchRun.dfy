/** Whole runs of the memory listener: mem_begin, any number of mem_add, mem_commit and then any
    sequence of lookups, against a flat map from addresses to the added sections. */
module DispatchRun {
  import opened Common
  import opened Arithmetic
  import opened RadixTree
  import opened Dispatch
  import opened DispatchUpdates
  import opened AddressSpace
  import opened MemoryListener

  /** What the added sections say about an address, without any table. */
  function FlatAt(g: Geometry, secs: seq<Section>, addr: nat): Option<(MemoryRegion, int)> {
    if secs == [] then None
    else
      var last := secs[|secs| - 1];
      if Covers(g, last, addr) then Some(Translate(last, addr)) else FlatAt(g, secs[..|secs| - 1], addr)
  }

  ghost predicate InRange(sec: Section, addr: nat) { sec.base <= addr < sec.base + sec.size }

  /** The byte is `sec`'s: its region, and as far from the section's offset as the address is from its base. */
  ghost predicate Belongs(r: Option<(MemoryRegion, int)>, sec: Section, addr: nat) {
    r.Some? && r.value.0 == sec.mr && r.value.1 - sec.offset == addr - sec.base
  }

  /** What a lookup gives: the byte of the section that has the address, or none. */
  ghost predicate Answered(secs: seq<Section>, addr: nat, r: Option<(MemoryRegion, int)>) {
    && (forall k :: 0 <= k < |secs| && InRange(secs[k], addr) ==> Belongs(r, secs[k], addr))
    && ((forall k :: 0 <= k < |secs| ==> !InRange(secs[k], addr)) ==> r == None)
  }

  /** Non-empty sections of ordinary regions within the address space. */
  ghost predicate Plausible(g: Geometry, sec: Section) {
    !sec.mr.Subpage? && 0 < sec.size && sec.base + sec.size <= g.space
  }

  ghost predicate Disjoint(secs: seq<Section>) {
    forall i, j :: 0 <= i < j < |secs| ==>
      secs[i].base + secs[i].size <= secs[j].base || secs[j].base + secs[j].size <= secs[i].base
  }

  /** Bytes outside the sections are unassigned. */
  lemma {:induction false} OutsideFlat(g: Geometry, secs: seq<Section>, addr: nat)
    requires forall i :: 0 <= i < |secs| ==> !Covers(g, secs[i], addr)
    ensures FlatAt(g, secs, addr) == None
  {
    if secs != [] {
      OutsideFlat(g, secs[..|secs| - 1], addr);
    }
  }

  /** The table shows what the sections say. */
  ghost predicate Shows(g: Geometry, flat: seq<nat>, sections: seq<Section>, subs: seq<SubpageTable>,
                        secs: seq<Section>) {
    forall addr: nat :: addr < g.space ==> At(g, flat, sections, subs, addr) == FlatAt(g, secs, addr)
  }

  /** The next of pairwise disjoint sections is free. */
  lemma NextFree(g: Geometry, flat: seq<nat>, sections: seq<Section>, subs: seq<SubpageTable>, secs: seq<Section>,
                 i: nat)
    requires g.Valid() && i < |secs| && Disjoint(secs) && (forall k :: 0 <= k < |secs| ==> Plausible(g, secs[k]))
    requires Shows(g, flat, sections, subs, secs[..i])
    ensures Free(g, flat, sections, subs, secs[i])
  {
    forall addr: nat | addr < g.space && Covers(g, secs[i], addr)
      ensures At(g, flat, sections, subs, addr) == None
    {
      CoversRange(g, secs[i], addr);
      forall k | 0 <= k < i
        ensures !Covers(g, secs[..i][k], addr)
      {
        CoversRange(g, secs[k], addr);
      }
      OutsideFlat(g, secs[..i], addr);
    }
  }

  lemma NextShows(g: Geometry, f0: seq<nat>, s0: seq<Section>, t0: seq<SubpageTable>,
                  f1: seq<nat>, s1: seq<Section>, t1: seq<SubpageTable>, secs: seq<Section>, i: nat)
    requires i < |secs| && Shows(g, f0, s0, t0, secs[..i]) && Overlaid(g, f0, s0, t0, f1, s1, t1, secs[i])
    ensures Shows(g, f1, s1, t1, secs[..i + 1])
  {
    assert secs[..i + 1][..i] == secs[..i];
  }

  /** A run of the listener followed by lookups. `!ok` is the failed assertion of
      phys_section_add, which cannot happen while the sections are few enough. A lookup that
      resolves subpages gives the region and offset of the added section that contains the
      address, and none when no section does, whatever was looked up before it. */
  method Run(g: Geometry, secs: seq<Section>, lookups: seq<(nat, bool)>)
    returns (ok: bool, out: seq<Option<(MemoryRegion, int)>>)
    requires g.Valid() && Disjoint(secs) && (forall i :: 0 <= i < |secs| ==> Plausible(g, secs[i]))
    requires forall i :: 0 <= i < |lookups| ==> lookups[i].0 < g.space
    ensures 4 + 5 * |secs| <= g.pageSize ==> ok
    ensures ok ==> |out| == |lookups|
    ensures ok ==> forall i :: 0 <= i < |lookups| && lookups[i].1 ==> Answered(secs, lookups[i].0, out[i])
  {
    hide Answered, Shows, Free, Overlaid, TableOk, AllInUse, FlatAt, Covers, At, EntryOk, TreeMatches, FindMatches,
         WalksBounded, Span;
    var d := new AddressSpaceDispatch(g);
    ok, out := true, [];
    NothingShown(g, d.flat, d.sections, d.subs, secs);
    var i := 0;
    while i < |secs|
      invariant 0 <= i <= |secs| && d.Building() && d.g == g && fresh(d) && fresh(d.pm)
      invariant Shows(g, d.flat, d.sections, d.subs, secs[..i])
      invariant |d.sections| <= 4 + 5 * i
    {
      NextFree(g, d.flat, d.sections, d.subs, secs, i);
      ghost var f0, s0, t0 := d.flat, d.sections, d.subs;
      AtMostFive(g, d.flat, secs[i]);
      ok := d.MemAdd(secs[i]);
      if !ok {
        return;
      }
      NextShows(g, f0, s0, t0, d.flat, d.sections, d.subs, secs, i);
      i := i + 1;
    }
    assert secs[..i] == secs;
    d.MemCommit();
    var k := 0;
    while k < |lookups|
      invariant 0 <= k <= |lookups| == |lookups| && |out| == k
      invariant d.Committed() && d.g == g && fresh(d) && fresh(d.pm)
      invariant Shows(g, d.flat, d.sections, d.subs, secs)
      invariant forall i :: 0 <= i < k && lookups[i].1 ==> Answered(secs, lookups[i].0, out[i])
    {
      var s := d.LookupRegion(lookups[k].0, lookups[k].1);
      LookupShows(g, d.flat, d.sections, d.subs, secs, lookups[k].0);
      FlatAnswers(g, secs, lookups[k].0);
      out := out + [if s == UNASSIGNED then None else Some(Translate(d.sections[s], lookups[k].0))];
      k := k + 1;
    }
  }

  lemma FlatAnswers(g: Geometry, secs: seq<Section>, addr: nat)
    requires Disjoint(secs) && (forall i :: 0 <= i < |secs| ==> Plausible(g, secs[i])) && addr < g.space
    ensures Answered(secs, addr, FlatAt(g, secs, addr))
  {
    hide FlatAt, Disjoint, Belongs;
    forall k | 0 <= k < |secs| && InRange(secs[k], addr) ensures Belongs(FlatAt(g, secs, addr), secs[k], addr) {
      FlatMeans(g, secs, k, addr);
    }
    if forall k :: 0 <= k < |secs| ==> !InRange(secs[k], addr) {
      forall k | 0 <= k < |secs| ensures !Covers(g, secs[k], addr) {
        CoversRange(g, secs[k], addr);
      }
      OutsideFlat(g, secs, addr);
    }
  }

  /** An address in a section belongs to that section. */
  lemma {:induction false} FlatMeans(g: Geometry, secs: seq<Section>, k: nat, addr: nat)
    requires Disjoint(secs) && (forall i :: 0 <= i < |secs| ==> Plausible(g, secs[i]))
    requires k < |secs| && InRange(secs[k], addr)
    ensures Belongs(FlatAt(g, secs, addr), secs[k], addr)
  {
    var last := |secs| - 1;
    CoversRange(g, secs[last], addr);
    if k < last {
      assert secs[..last][k] == secs[k];
      FlatMeans(g, secs[..last], k, addr);
    }
  }

  /** The first byte of a section is at the section's offset in its region, and each next byte is one further. */
  lemma FlatBytes(g: Geometry, secs: seq<Section>, k: nat, addr: nat)
    requires Disjoint(secs) && (forall i :: 0 <= i < |secs| ==> Plausible(g, secs[i]))
    requires k < |secs| && InRange(secs[k], addr)
    ensures FlatAt(g, secs, secs[k].base) == Some((secs[k].mr, secs[k].offset))
    ensures InRange(secs[k], addr + 1) ==>
              && FlatAt(g, secs, addr).Some?
              && FlatAt(g, secs, addr + 1) == Some((secs[k].mr, FlatAt(g, secs, addr).value.1 + 1))
  {
    FlatMeans(g, secs, k, secs[k].base);
    FlatMeans(g, secs, k, addr);
    if InRange(secs[k], addr + 1) {
      FlatMeans(g, secs, k, addr + 1);
    }
  }

  lemma NothingShown(g: Geometry, flat: seq<nat>, sections: seq<Section>, subs: seq<SubpageTable>, secs: seq<Section>)
    requires forall addr: nat :: addr < g.space ==> At(g, flat, sections, subs, addr) == None
    ensures Shows(g, flat, sections, subs, secs[..0])
  {
  }

  lemma LookupShows(g: Geometry, flat: seq<nat>, sections: seq<Section>, subs: seq<SubpageTable>,
                    secs: seq<Section>, addr: nat)
    requires TableOk(g, flat, sections, subs) && Shows(g, flat, sections, subs, secs) && addr < g.space
    ensures var s := Resolve(g, flat, sections, subs, addr);
            s < |sections| && FlatAt(g, secs, addr) == if s == UNASSIGNED then None
              else Some(Translate(sections[s], addr))
  {
    assert ByteOk(g, flat, sections, subs, addr);
  }

  lemma {:induction false} Pow2Sum(a: nat, b: nat)
    ensures Pow2(a + b) == Pow2(a) * Pow2(b)
  {
    if b > 0 {
      Pow2Sum(a, b - 1);
      DoubleProduct(Pow2(a), Pow2(b - 1));
    }
  }

  lemma DoubleProduct(x: nat, y: nat)
    ensures 2 * (x * y) == x * (2 * y)
  {
  }

  lemma {:induction false} Pow2Order(a: nat, b: nat)
    requires a <= b
    ensures Pow2(a) <= Pow2(b)
  {
    if a < b {
      Pow2Order(a, b - 1);
    }
  }

  lemma {:induction false} SpanIsPow2(l: nat)
    ensures Span(512, l) == Pow2(9 * l)
  {
    if l > 0 {
      SpanIsPow2(l - 1);
      assert Pow2(9 * l) == 512 * Pow2(9 * l - 9) by {
        Pow2Sum(9 * l - 9, 9);
        assert Pow2(9) == 512;
      }
    }
  }

  /** The geometry of the source: P_L2_BITS is 9, ADDR_SPACE_BITS is 64, P_L2_LEVELS is computed
      from TARGET_PAGE_BITS and PHYS_MAP_NODE_NIL is 26 bits of ones. */
  function QemuGeometry(pageBits: nat): Geometry
    requires pageBits < 64
  {
    Geometry(512, QemuLevels(pageBits), Pow2(pageBits), Pow2(64), Pow2(26) - 1)
  }

  /** P_L2_LEVELS */
  function QemuLevels(pageBits: nat): nat
    requires pageBits < 64
  {
    (64 - pageBits - 1) / 9 + 1
  }

  lemma LevelsCover(pageBits: nat)
    requires 3 <= pageBits < 64
    ensures 1 <= QemuLevels(pageBits) <= 8
    ensures 9 * (QemuLevels(pageBits) - 1) < 64 - pageBits <= 9 * QemuLevels(pageBits)
  {
  }

  /** For every page size of 8 to 65536 bytes the levels cover all 64 address bits, none of them is too many, and
      node numbers never run into PHYS_MAP_NODE_NIL. */
  lemma QemuGeometryValid(pageBits: nat)
    requires 3 <= pageBits <= 16
    ensures QemuGeometry(pageBits).Valid()
    ensures var g := QemuGeometry(pageBits); g.pageSize * Span(g.fanout, g.levels - 1) < g.space
  {
    hide Pow2, Span, QemuLevels;
    LevelsCover(pageBits);
    var g := QemuGeometry(pageBits);
    FewerLevels(pageBits, g.levels - 1);
    var p, q := Pow2(pageBits), Pow2(64 - pageBits);
    Pow2Sum(pageBits, 64 - pageBits);
    ModOfMultiple(p, q);
    Pow2Order(64 - pageBits, 9 * g.levels);
    SpanIsPow2(g.levels);
    MulMonotone(q, Span(512, g.levels), p);
    PageNotTiny(pageBits);
    SmallNodes(p, g.levels, pageBits);
  }

  /** With fewer levels, the tree would not cover the address space. */
  lemma FewerLevels(pageBits: nat, l: nat)
    requires pageBits + 9 * l < 64
    ensures Pow2(pageBits) * Span(512, l) < Pow2(64)
  {
    hide Pow2, Span;
    SpanIsPow2(l);
    Pow2Sum(pageBits, 9 * l);
    Pow2Order(pageBits + 9 * l, 63);
    Pow2Next(63);
  }

  lemma Pow2Next(n: nat)
    ensures Pow2(n) < Pow2(n + 1)
  {
  }

  lemma PageNotTiny(pageBits: nat)
    requires 3 <= pageBits
    ensures 8 <= Pow2(pageBits)
  {
    Pow2Order(3, pageBits);
    assert Pow2(3) == 8;
  }

  lemma SmallNodes(p: nat, levels: nat, pageBits: nat)
    requires pageBits <= 16 && p == Pow2(pageBits) && levels <= 8
    ensures p * (2 * levels) < Pow2(26) - 1
  {
    Pow2Order(pageBits, 16);
    Pow2Sum(16, 10);
    Pow2Sum(8, 8);
    assert Pow2(10) == 1024 by { Pow2Sum(5, 5); assert Pow2(5) == 32; }
    assert Pow2(8) == 256 by { Pow2Sum(4, 4); assert Pow2(4) == 16; }
    MulMonotone(p, 65536, 2 * levels);
    assert 65536 * (2 * levels) <= 65536 * 16;
  }
}
