/** The memory listener of an address space (qemu/exec.c): mem_begin, mem_add and mem_commit,
    and the lookups that go through the most recently used section. */
module MemoryListener {
  import opened Common
  import opened Arithmetic
  import opened RadixTree
  import opened PhysPageSet
  import opened PhysPageCompact
  import opened Dispatch
  import opened DispatchUpdates
  import opened AddressSpace

  function Dummies(g: Geometry): seq<Section> {
    [Dummy(g, IoUnassigned), Dummy(g, IoNotDirty), Dummy(g, IoRom), Dummy(g, IoWatch)]
  }

  /** The table of mem_begin: four dummy sections and no page assigned. */
  lemma EmptyTable(g: Geometry, flat: seq<nat>)
    requires g.Valid() && |flat| == Span(g.fanout, g.levels) && forall q :: 0 <= q < |flat| ==> flat[q] == UNASSIGNED
    ensures TableOk(g, flat, Dummies(g), []) && AllInUse(g, flat, Dummies(g), [])
    ensures TreeMatches(g, [], Entry(1, g.nil), flat)
    ensures forall addr: nat :: addr < g.space ==> At(g, flat, Dummies(g), [], addr) == None
  {
    var d := Dummies(g);
    assert d[..4] == d;
    forall addr: nat | addr < g.space
      ensures Resolve(g, flat, d, [], addr) == UNASSIGNED
    {
      PageInTree(g, addr);
    }
  }

  /** How many nodes the tree has at most after `n` sections. */
  ghost function NodeLimit(g: Geometry, n: nat): nat { 2 * g.levels * n }

  lemma NodeBudget(g: Geometry, n: nat)
    ensures NodeLimit(g, n) + 2 * g.levels == NodeLimit(g, n + 1)
    ensures g.Valid() && n < g.pageSize ==> NodeLimit(g, n + 1) < g.nil
  {
    if g.Valid() && n < g.pageSize {
      MulMonotone(n + 1, g.pageSize, 2 * g.levels);
    }
  }

  /** The section that shows at the page of an address. */
  ghost function PageSection(g: Geometry, flat: seq<nat>, addr: nat): nat {
    if 0 < g.pageSize && Page(g, addr) < |flat| then flat[Page(g, addr)] else UNASSIGNED
  }

  /** The most recently used section covers the address and is not a subpage. */
  ghost predicate MruIsByteSection(g: Geometry, mru: Option<nat>, sections: seq<Section>, addr: nat) {
    && mru.Some? && mru.value != UNASSIGNED && mru.value < |sections|
    && Covers(g, sections[mru.value], addr) && !sections[mru.value].mr.Subpage?
  }

  class AddressSpaceDispatch {
    const g: Geometry
    const pm: PhysPageMap
    var root: Entry
    var sections: seq<Section>
    var subs: seq<SubpageTable>
    var mru: Option<nat>
    /** The section that shows at each page. */
    ghost var flat: seq<nat>

    ghost predicate Sound()
      reads this, pm
    {
      && g.Valid() && pm.g == g && pm.Valid()
      && EntryOk(g, pm.labels, root, g.levels, 0)
      && TableOk(g, flat, sections, subs) && AllInUse(g, flat, sections, subs)
      && |sections| <= g.pageSize && |pm.nodes| <= NodeLimit(g, |sections|)
    }

    /** Between mem_begin and mem_commit. */
    ghost predicate Building()
      reads this, pm
    {
      Sound() && AllPlain(pm.nodes) && root.skip == 1 && TreeMatches(g, pm.nodes, root, flat) && mru == None
    }

    /** After mem_commit. */
    ghost predicate Committed()
      reads this, pm
    {
      && Sound()
      && FindMatches(g, pm.nodes, sections, root, flat) && WalksBounded(g, pm.nodes, root, |sections|)
      && (mru.Some? ==> mru.value < |sections| && (mru.value == UNASSIGNED || 4 <= mru.value))
    }

    /** mem_begin */
    constructor (g: Geometry)
      requires g.Valid()
      ensures Building() && this.g == g && fresh(pm)
      ensures |sections| == 4
      ensures forall addr: nat :: addr < g.space ==> At(g, flat, sections, subs, addr) == None
    {
      hide TableOk, AllInUse, TreeMatches, At, Span;
      ghost var f := seq(Span(g.fanout, g.levels), i => UNASSIGNED);
      EmptyTable(g, f);
      this.g := g;
      pm := new PhysPageMap(g);
      root := Entry(1, g.nil);
      sections := [Dummy(g, IoUnassigned), Dummy(g, IoNotDirty), Dummy(g, IoRom), Dummy(g, IoWatch)];
      subs := [];
      mru := None;
      flat := f;
    }

    /** phys_page_find */
    method PageFind(addr: nat) returns (r: nat)
      requires Sound() && WalksBounded(g, pm.nodes, root, |sections|) && addr < g.space
      ensures r == Find(g, pm.nodes, sections, root, addr) && r < |sections|
    {
      PageInTree(g, addr);
      var lp := root;
      var index := Page(g, addr);
      var i: int := g.levels;
      ghost var b := 0;
      while lp.skip != 0
        invariant 0 <= i <= g.levels && EntryOk(g, pm.labels, lp, i, b)
        invariant Walk(g, pm.nodes, lp, i, index) == Walk(g, pm.nodes, root, g.levels, index)
        decreases i
      {
        i := i - lp.skip;
        if i < 0 {
          break;
        }
        if lp.ptr == g.nil {
          return UNASSIGNED;
        }
        assert NodeOk(g, pm.labels, pm.nodes[lp.ptr], pm.labels[lp.ptr]);
        var d := Digit(g.fanout, i, index);
        b := EntryBase(g.fanout, i, pm.labels[lp.ptr].base, d);
        lp := pm.nodes[lp.ptr][d];
      }
      if Covers(g, sections[lp.ptr], addr) {
        r := lp.ptr;
      } else {
        r := UNASSIGNED;
      }
    }

    /** phys_section_add; `!ok` is its failed assertion. */
    method SectionAdd(sec: Section) returns (ok: bool, n: nat)
      modifies this`sections
      ensures ok <==> old(|sections|) < g.pageSize
      ensures ok ==> n == old(|sections|) && sections == old(sections) + [sec]
      ensures !ok ==> sections == old(sections)
    {
      ok, n := |sections| < g.pageSize, |sections|;
      if ok {
        sections := sections + [sec];
      }
    }

    /** register_multipage */
    method RegisterMultipage(sec: Section) returns (ok: bool)
      requires Building() && !sec.mr.Subpage?
      requires PageOffset(g, sec.base) == 0 && PageOffset(g, sec.size) == 0 && 0 < sec.size
      requires sec.base + sec.size <= g.space
      requires Free(g, flat, sections, subs, sec)
      modifies this, pm
      ensures ok <==> old(|sections|) < g.pageSize
      ensures ok ==> Building() && |sections| == old(|sections|) + 1
      ensures ok ==> Overlaid(g, old(flat), old(sections), old(subs), flat, sections, subs, sec)
      ensures ok ==> KeptFrom(old(flat), flat, Page(g, sec.base) + Page(g, sec.size))
    {
      hide TableOk, AllInUse, Free, Overlaid, Span, TreeOk, EntryOk, Unassigned, WalksUpdated, AllPlain, TreeMatches;
      ghost var f0, s0 := flat, sections;
      var index;
      ok, index := SectionAdd(sec);
      if !ok {
        return;
      }
      var first, n := Page(g, sec.base), Page(g, sec.size);
      WholePagesOf(g, sec);
      MultipageStep(g, f0, s0, subs, sec, first, n);
      SetPages(first, n, index, sec);
    }

    /** The tree is plain and says what `flat` says. */
    ghost predicate TreeReady()
      reads this, pm
    {
      && g.Valid() && pm.g == g && pm.Valid() && AllPlain(pm.nodes)
      && EntryOk(g, pm.labels, root, g.levels, 0) && root.skip == 1 && TreeMatches(g, pm.nodes, root, flat)
    }

    /** phys_page_set for the free pages of a section that has just got its number. */
    method SetPages(first: nat, n: nat, index: nat, ghost sec: Section)
      requires TreeReady() && PagesFree(g, flat, subs, sec, first, n) && 0 < n
      requires 0 < index < g.pageSize && |pm.nodes| <= NodeLimit(g, index)
      modifies this`root, this`flat, pm
      ensures TreeReady() && flat == SetRange(old(flat), first, n, index)
      ensures |pm.nodes| <= NodeLimit(g, index + 1)
    {
      hide TreeOk, EntryOk, Unassigned, WalksUpdated, AllPlain, TreeMatches, Span, SetRange, NodeLimit, PagesFree,
           Geometry.Valid, PhysPageMap.Valid;
      SetReady(g, pm.nodes, root, flat, subs, sec, first, n, index);
      ghost var n0, r0 := pm.nodes, root;
      root := pm.PageSet(root, first, n, index);
      SetMatches(g, n0, r0, pm.nodes, root, flat, first, n, index);
      flat := SetRange(flat, first, n, index);
    }

    /** Building, except that the bytes of page `q`'s subpage may all be unassigned yet. */
    ghost predicate HalfBuilt(q: nat)
      reads this, pm
    {
      && TreeReady() && HalfTable(g, flat, sections, subs, q) && mru == None
      && |sections| <= g.pageSize && |pm.nodes| <= NodeLimit(g, |sections|)
    }

    /** The first half of register_subpage: `k` is the table of page `q`, created if there is none. */
    method EnsureSubpage(q: nat, ghost sec: Section) returns (ok: bool, k: nat)
      requires Building() && WithinPage(g, sec, q) && Free(g, flat, sections, subs, sec)
      modifies this, pm
      ensures ok <==> old(|sections|) + PageCost(old(flat), q) <= g.pageSize + 1
      ensures ok ==> HalfBuilt(q) && |sections| + 1 == old(|sections|) + PageCost(old(flat), q)
      ensures ok ==> KeptFrom(old(flat), flat, q + 1)
      ensures ok ==> BytesFree(g, flat, sections, subs, sec, q) && k == sections[flat[q]].mr.id
      ensures ok ==> SameBytes(g, old(flat), old(sections), old(subs), flat, sections, subs)
    {
      hide TableOk, AllInUse, Free, Span, TreeOk, EntryOk, Unassigned, WalksUpdated, AllPlain, TreeMatches,
        BytesFree, InUse, WalksBounded, PagesFree, SameBytes, Find, WithinPage, SetRange;
      EnsureReady(g, pm.nodes, root, flat, sections, subs, sec, q);
      var existing := PageFind(q * g.pageSize);
      if !sections[existing].mr.Subpage? {
        assert sections[existing].mr == IoUnassigned;
        ok, k := CreateSubpage(q, sec);
      } else {
        ok, k := true, sections[existing].mr.id;
        AllInUseElsewhere(g, flat, sections, subs, q);
      }
    }

    /** A subpage for an unassigned page. */
    method CreateSubpage(q: nat, ghost sec: Section) returns (ok: bool, k: nat)
      requires Building() && WithinPage(g, sec, q) && Free(g, flat, sections, subs, sec) && q < |flat|
      requires flat[q] == UNASSIGNED
      modifies this, pm
      ensures ok <==> old(|sections|) < g.pageSize
      ensures ok ==> HalfBuilt(q) && |sections| == old(|sections|) + 1 && q < |flat| && flat[q] < |sections|
      ensures ok ==> KeptFrom(old(flat), flat, q + 1)
      ensures ok ==> BytesFree(g, flat, sections, subs, sec, q) && sections[flat[q]].mr == Subpage(k)
      ensures ok ==> SameBytes(g, old(flat), old(sections), old(subs), flat, sections, subs)
    {
      GeometryFacts(g);
      hide TableOk, AllInUse, Free, TreeOk, EntryOk, AllPlain, TreeMatches, BytesFree, InUse, PagesFree, SameBytes,
           WithinPage, SetRange, HalfTable, KeptFrom, NodeLimit, Geometry.Valid, BlankTable;
      var base := q * g.pageSize;
      ghost var f0, s0, t0 := flat, sections, subs;
      var table := SubpageInit(base);
      k := |subs|;
      var page := Section(Subpage(k), base, 0, g.pageSize);
      var n;
      ok, n := SectionAdd(page);
      if !ok {
        return;
      }
      MakeSubpage(g, f0, s0, t0, sec, q, page, table);
      SetPages(q, 1, n, page);
      subs := subs + [table];
    }

    /** subpage_init */
    method SubpageInit(base: nat) returns (table: SubpageTable)
      requires 0 < g.pageSize
      ensures table == BlankTable(g, base)
    {
      var zeroed := SubpageTable(base, seq(g.pageSize, i => 0));
      table := SubpageRegister(zeroed, 0, g.pageSize - 1, UNASSIGNED);
    }

    /** subpage_register; out-of-page positions leave the table alone. */
    method SubpageRegister(mmio: SubpageTable, start: nat, end: nat, section: nat) returns (mmio': SubpageTable)
      requires |mmio.sub| == g.pageSize && start <= end
      ensures end < g.pageSize ==> mmio' == SubpageTable(mmio.base, SetRange(mmio.sub, start, end + 1 - start, section))
      ensures end >= g.pageSize ==> mmio' == mmio
    {
      mmio' := mmio;
      if start >= g.pageSize || end >= g.pageSize {
        return;
      }
      var idx := start;
      while idx <= end
        invariant start <= idx <= end + 1
        invariant mmio' == SubpageTable(mmio.base, SetRange(mmio.sub, start, idx - start, section))
      {
        mmio' := mmio'.(sub := mmio'.sub[idx := section]);
        assert mmio'.sub == SetRange(mmio.sub, start, idx + 1 - start, section);
        idx := idx + 1;
      }
    }

    /** register_subpage. Its assertion, that the page is unassigned or a subpage, always holds. */
    method RegisterSubpage(sec: Section) returns (ok: bool)
      requires 0 < g.pageSize && WithinPage(g, sec, Page(g, sec.base))
      requires Building()
      requires Free(g, flat, sections, subs, sec)
      modifies this, pm
      ensures ok <==> old(|sections|) + PageCost(old(flat), Page(g, sec.base)) <= g.pageSize
      ensures ok ==> Building() && |sections| == old(|sections|) + PageCost(old(flat), Page(g, sec.base))
      ensures ok ==> KeptFrom(old(flat), flat, Page(g, sec.base) + 1)
      ensures ok ==> Overlaid(g, old(flat), old(sections), old(subs), flat, sections, subs, sec)
    {
      hide TableOk, AllInUse, Free, Overlaid, Span, TreeOk, EntryOk, AllPlain, TreeMatches, BytesFree, InUse, SameBytes;
      var q := Page(g, sec.base);
      ghost var f0, s0, t0 := flat, sections, subs;
      var k, t;
      ok, k := EnsureSubpage(q, sec);
      if !ok {
        return;
      }
      ghost var s1, t1 := sections, subs;
      SubpageStep(g, flat, sections, subs, sec, q);
      RegisterReady(g, flat, sections, subs, sec, q);
      NodeBudget(g, |sections|);
      ok, t := SectionAdd(sec);
      if !ok {
        return;
      }
      var start := sec.base - q * g.pageSize;
      var table := SubpageRegister(subs[k], start, start + sec.size - 1, t);
      subs := subs[k := table];
      assert subs == WithBytes(g, flat, s1, t1, sec, q);
      OverlaySame(g, f0, s0, t0, flat, s1, t1, flat, sections, subs, sec);
    }

    /** mem_add. The section's pieces tile it: afterwards its bytes, and only they, show it.
        `!ok` is the failed assertion of phys_section_add: the numbers left do not cover its pieces. */
    method MemAdd(section: Section) returns (ok: bool)
      requires Building() && !section.mr.Subpage? && 0 < section.size && section.base + section.size <= g.space
      requires Free(g, flat, sections, subs, section)
      modifies this, pm
      ensures ok <==> old(|sections|) + SectionCost(g, old(flat), section) <= g.pageSize
      ensures ok ==> Building() && |sections| == old(|sections|) + SectionCost(g, old(flat), section)
      ensures ok ==> Overlaid(g, old(flat), old(sections), old(subs), flat, sections, subs, section)
    {
      hide Sound, TreeMatches, AllPlain, Free, Overlaid, At, Covers, PageOffset, PageAlign, Page, PageCost,
        RestCost, KeptFrom, SectionCost;
      ghost var f0, s0, t0 := flat, sections, subs;
      SoundGeometry();
      var now, remain := section, section;
      ok := true;
      ghost var d := 0;
      if PageOffset(g, now.base) != 0 {
        var left;
        ok, left := RegisterHead(section);
        if !ok {
          return;
        }
        now := now.(size := left);
      } else {
        now := now.(size := 0);
        NothingOverlaid(g, f0, s0, t0, section);
        KeptAll(f0, Page(g, section.base));
        NoHeadCost(g, f0, section);
      }
      while remain.size != now.size
        invariant Building() && 0 <= d <= section.size
        invariant remain == PieceOf(section, d, section.size - d) && now == PieceOf(section, d, now.size)
        invariant now.size <= remain.size
        invariant remain.size == now.size ||
                    (PageOffset(g, remain.base + now.size) == 0 && KeptFrom(f0, flat, Page(g, remain.base + now.size)))
        invariant Overlaid(g, f0, s0, t0, flat, sections, subs, section.(size := d + now.size))
        invariant |sections| + RestCost(g, f0, remain.base + now.size, remain.size - now.size)
                  == |s0| + SectionCost(g, f0, section)
        decreases remain.size - now.size
      {
        d := d + now.size;
        remain := Section(remain.mr, remain.base + now.size, remain.offset + now.size, remain.size - now.size);
        NextCostStep(g, f0, remain.base, remain.size);
        var n;
        ok, n := RegisterNext(remain, f0, s0, t0, section, d);
        if !ok {
          return;
        }
        now := remain.(size := n);
      }
      NoRest(g, f0, remain.base + now.size);
      SoundGeometry();
    }

    lemma SoundGeometry()
      requires Sound()
      ensures g.Valid() && |sections| <= g.pageSize
    {
    }

    /** What mem_add registers of a section that starts inside a page, up to the end of the page or its own. */
    method RegisterHead(section: Section) returns (ok: bool, m: nat)
      requires g.Valid() && Building() && !section.mr.Subpage? && 0 < section.size
      requires section.base + section.size <= g.space && PageOffset(g, section.base) != 0
      requires Free(g, flat, sections, subs, section)
      modifies this, pm
      ensures 0 < m <= section.size && (m == section.size || PageOffset(g, section.base + m) == 0)
      ensures !ok ==> old(|sections|) + SectionCost(g, old(flat), section) > g.pageSize
      ensures ok ==> Building() && Overlaid(g, old(flat), old(sections), old(subs), flat, sections, subs,
                                            section.(size := m))
      ensures ok && m < section.size ==> KeptFrom(old(flat), flat, Page(g, section.base + m))
      ensures ok ==> |sections| + RestCost(g, old(flat), section.base + m, section.size - m)
                     == old(|sections|) + SectionCost(g, old(flat), section)
    {
      hide Sound, TreeMatches, AllPlain, Free, Overlaid, At, Covers, WithinPage, PageOffset, PageAlign, Page, PageCost,
        RestCost, KeptFrom, SectionCost;
      ghost var f0, s0, t0 := flat, sections, subs;
      AlignAfter(g, section.base);
      var left := PageAlign(g, section.base) - section.base;
      m := if left < section.size then left else section.size;
      HeadPiece(g, section, m);
      HeadCost(g, f0, section, m);
      NothingOverlaid(g, f0, s0, t0, section);
      ok := RegisterPiece(section.(size := m), f0, s0, t0, section, 0);
    }

    /** One turn of mem_add's loop: the rest of the section is less than a page, or starts with whole pages. */
    method RegisterNext(remain: Section, ghost f0: seq<nat>, ghost s0: seq<Section>, ghost t0: seq<SubpageTable>,
                        ghost section: Section, ghost d: nat) returns (ok: bool, n: nat)
      requires g.Valid() && Building() && !section.mr.Subpage? && section.base + section.size <= g.space
      requires d < section.size && remain == PieceOf(section, d, section.size - d)
      requires PageOffset(g, remain.base) == 0 && KeptFrom(f0, flat, Page(g, remain.base))
      requires Free(g, f0, s0, t0, section) && Overlaid(g, f0, s0, t0, flat, sections, subs, section.(size := d))
      modifies this, pm
      ensures n == NextSize(g, remain.size) && 0 < n <= remain.size
      ensures ok <==> old(|sections|) + NextCost(g, f0, remain.base, remain.size) <= g.pageSize
      ensures ok ==> Building() && |sections| == old(|sections|) + NextCost(g, f0, remain.base, remain.size)
      ensures ok ==> Overlaid(g, f0, s0, t0, flat, sections, subs, section.(size := d + n))
      ensures ok && n < remain.size ==>
                PageOffset(g, remain.base + n) == 0 && KeptFrom(f0, flat, Page(g, remain.base + n))
    {
      hide Sound, TreeMatches, AllPlain, Free, Overlaid, At, Covers, WithinPage, PageOffset, Page;
      var now := remain;
      n := remain.size;
      if remain.size < g.pageSize {
        TailPiece(g, now);
        SameCost(f0, flat, Page(g, remain.base));
        ok := RegisterPiece(now, f0, s0, t0, section, d);
      } else if PageOffset(g, remain.base) != 0 {
        assert false;
      } else {
        OffsetBound(g, now.size);
        n := now.size - PageOffset(g, now.size);
        now := now.(size := n);
        WholePiece(g, remain.base, remain.size, n);
        PieceFree(g, f0, s0, t0, flat, sections, subs, section, d, n);
        ghost var f1, s1, t1 := flat, sections, subs;
        ok := RegisterMultipage(now);
        if ok {
          PieceOverlaid(g, f0, s0, t0, f1, s1, t1, flat, sections, subs, section, d, n);
          KeptThen(f0, f1, flat, Page(g, remain.base), Page(g, remain.base + n));
        }
      }
    }

    /** mem_commit: compaction, after which lookups are allowed and there is nothing left to fold; no byte's section
        changes. */
    method MemCommit()
      requires Building()
      modifies this`root, pm`nodes
      ensures Committed() && Tight(g, pm.nodes, root, g.levels)
    {
      hide TableOk, AllInUse, Span, EntryOk, TreeMatches, FindMatches, Compacted, WalksBounded, Framed, Tight;
      ghost var n0, r0 := pm.nodes, root;
      if root.skip != 0 {
        AllPlainInside(g, pm.nodes, pm.labels);
        root := Compact(pm, root, g.levels, 0);
        FramedSize(g, n0, pm.labels, pm.nodes, pm.labels, g.levels, 0);
        CompactedMatches(g, n0, r0, pm.nodes, root, flat, sections, subs);
      }
    }

    /** address_space_lookup_region. Whatever the most recently used section, a lookup that
        resolves subpages gives the section of the byte. One that does not gives the section of
        the page, except when the most recently used section is an entry of that page's table. */
    method LookupRegion(addr: nat, resolveSubpage: bool) returns (section: nat)
      requires 0 < g.pageSize && addr < g.space
      requires Committed()
      modifies this`mru
      ensures resolveSubpage ==> section == Resolve(g, flat, sections, subs, addr)
      ensures !resolveSubpage ==>
                section == if MruIsByteSection(g, old(mru), sections, addr) then Resolve(g, flat, sections, subs, addr)
                           else PageSection(g, flat, addr)
      ensures Committed() && section < |sections|
      ensures mru == if old(mru).Some? && old(mru).value != UNASSIGNED && old(mru).value < |sections|
                        && Covers(g, sections[old(mru).value], addr) then old(mru) else Some(section)
    {
      hide TableOk, AllInUse, Span, EntryOk, FindMatches, WalksBounded, Covers;
      LookupFacts(g, pm.nodes, sections, root, flat, subs, addr);
      var update;
      if mru.Some? && mru.value != UNASSIGNED && Covers(g, sections[mru.value], addr) {
        section := mru.value;
        update := false;
        MruFacts(g, flat, sections, subs, section, addr);
      } else {
        section := PageFind(addr);
        update := true;
      }
      if resolveSubpage && sections[section].mr.Subpage? {
        section := subs[sections[section].mr.id].sub[PageOffset(g, addr)];
      }
      if update {
        mru := Some(section);
      }
    }

    /** address_space_translate_internal. RAM accesses are clamped to the section, and every
        byte of the clamped access belongs to that section's region at consecutive offsets. */
    method TranslateInternal(addr: nat, plen: nat, resolveSubpage: bool) returns (section: nat, xlat: int, plen': nat)
      requires 0 < g.pageSize && addr < g.space
      requires Committed()
      modifies this`mru
      ensures section < |sections| && IsRam(sections[section].mr) ==>
                && plen' <= plen && (0 < plen ==> 0 < plen')
                && (plen' < plen ==> addr + plen' == sections[section].base + sections[section].size)
      ensures section < |sections| && !IsRam(sections[section].mr) ==> plen' == plen
      ensures Committed() && section < |sections|
      ensures xlat - sections[section].offset == addr - sections[section].base
      ensures IsRam(sections[section].mr) ==>
                sections[section].base <= addr < sections[section].base + sections[section].size
      ensures resolveSubpage ==>
                match At(g, flat, sections, subs, addr)
                case None => section == UNASSIGNED && xlat == addr
                case Some(t) => section < |sections| && t == (sections[section].mr, xlat)
      ensures resolveSubpage && section < |sections| && IsRam(sections[section].mr) ==>
                forall a: nat :: addr <= a < addr + plen' ==>
                  At(g, flat, sections, subs, a) == Some((sections[section].mr, xlat + (a - addr)))
    {
      hide TableOk, AllInUse, Span, EntryOk, FindMatches, WalksBounded, Covers, At, MruIsByteSection;
      MruCovers(g, flat, sections, subs, mru, addr);
      LookupFacts(g, pm.nodes, sections, root, flat, subs, addr);
      section := LookupRegion(addr, resolveSubpage);
      var rel := addr - sections[section].base;
      xlat := rel + sections[section].offset;
      plen' := plen;
      TranslateFacts(g, flat, sections, subs, addr, section);
      if IsRam(sections[section].mr) {
        var diff := sections[section].size - rel;
        plen' := if diff < plen then diff else plen;
        ClampFacts(g, flat, sections, subs, addr, section, plen');
      }
    }

    /** The bytes [addr, addr + n) are in one region, at consecutive offsets from `t` on. */
    ghost predicate OneRegion(addr: nat, n: nat, t: (MemoryRegion, int))
      reads this
    {
      forall a: nat :: addr <= a < addr + n ==> At(g, flat, sections, subs, a) == Some((t.0, t.1 + (a - addr)))
    }

    /** Some section has the address, and region and offset are its own at that distance from its start. */
    static ghost predicate InSection(sections: seq<Section>, addr: nat, t: (MemoryRegion, int)) {
      exists s :: 0 <= s < |sections| && sections[s].base <= addr < sections[s].base + sections[s].size
                  && t.0 == sections[s].mr && t.1 - sections[s].offset == addr - sections[s].base
    }

    /** The direct part of address_space_map: as much of [addr, addr + len) as is one stretch of a RAM region. No
        result stands for an empty request or one that goes through the bounce buffer. */
    method MapDirect(addr: nat, len: nat) returns (r: Option<(MemoryRegion, int)>, done: nat)
      requires 0 < g.pageSize && addr + len <= g.space && Committed()
      modifies this`mru
      ensures Committed()
      ensures r.None? ==> len == 0 || At(g, flat, sections, subs, addr) == None
                          || !IsRam(At(g, flat, sections, subs, addr).value.0)
      ensures r.Some? ==> 0 < done <= len && IsRam(r.value.0) && OneRegion(addr, done, r.value)
      ensures r.Some? ==> InSection(sections, addr, r.value)
      ensures r.Some? && done < len ==> At(g, flat, sections, subs, addr + done) != Some((r.value.0, r.value.1 + done))
    {
      hide Committed, At;
      r, done := None, 0;
      if len == 0 {
        return;
      }
      var section, base, l := TranslateInternal(addr, len, true);
      var mr := sections[section].mr;
      if !IsRam(mr) {
        return;
      }
      while true
        invariant Committed() && IsRam(mr) && 0 < l <= len - done && done + l <= len
        invariant OneRegion(addr, done + l, (mr, base)) && InSection(sections, addr, (mr, base))
        decreases len - done
      {
        done := done + l;
        if done == len {
          break;
        }
        var next, xlat;
        next, xlat, l := TranslateInternal(addr + done, len - done, true);
        if sections[next].mr != mr || xlat != base + done {
          break;
        }
      }
      r := Some((mr, base));
    }

    /** register_subpage on the part of `section` that starts after its first `d` bytes. */
    method RegisterPiece(now: Section, ghost f0: seq<nat>, ghost s0: seq<Section>, ghost t0: seq<SubpageTable>,
                         ghost section: Section, ghost d: nat) returns (ok: bool)
      requires 0 < g.pageSize && WithinPage(g, now, Page(g, now.base))
      requires Building() && !section.mr.Subpage? && section.base + section.size <= g.space
      requires d + now.size <= section.size && now == PieceOf(section, d, now.size)
      requires Free(g, f0, s0, t0, section)
      requires Overlaid(g, f0, s0, t0, flat, sections, subs, section.(size := d))
      modifies this, pm
      ensures ok <==> old(|sections|) + PageCost(old(flat), Page(g, now.base)) <= g.pageSize
      ensures ok ==> Building() && |sections| == old(|sections|) + PageCost(old(flat), Page(g, now.base))
      ensures ok ==> KeptFrom(old(flat), flat, Page(g, now.base) + 1)
      ensures ok ==> Overlaid(g, f0, s0, t0, flat, sections, subs, section.(size := d + now.size))
    {
      hide TableOk, AllInUse, Free, Overlaid, Span, TreeOk, EntryOk, AllPlain, TreeMatches, At, Covers, WithinPage;
      PieceFree(g, f0, s0, t0, flat, sections, subs, section, d, now.size);
      ghost var f1, s1, t1 := flat, sections, subs;
      ok := RegisterSubpage(now);
      if ok {
        PieceOverlaid(g, f0, s0, t0, f1, s1, t1, flat, sections, subs, section, d, now.size);
      }
    }
  }

  lemma AllPlainInside(g: Geometry, nodes: seq<Node>, labels: seq<Label>)
    requires AllPlain(nodes) && |nodes| == |labels|
    ensures PlainInside(g, nodes, labels, g.levels, 0)
  {
  }

  lemma FramedSize(g: Geometry, n0: seq<Node>, l0: seq<Label>, n1: seq<Node>, l1: seq<Label>, h: nat, b: nat)
    requires Framed(g, n0, l0, n1, l1, h, b) && |l0| == |l1|
    ensures |n1| == |n0|
  {
  }

  /** The page of an address and its section; through a subpage, the section of the byte. */
  lemma LookupFacts(g: Geometry, nodes: seq<Node>, sections: seq<Section>, root: Entry, flat: seq<nat>,
                    subs: seq<SubpageTable>, addr: nat)
    requires FindMatches(g, nodes, sections, root, flat) && TableOk(g, flat, sections, subs) && addr < g.space
    ensures Page(g, addr) < |flat| && flat[Page(g, addr)] < |sections|
    ensures flat[Page(g, addr)] == UNASSIGNED || 4 <= flat[Page(g, addr)]
    ensures Find(g, nodes, sections, root, addr) == flat[Page(g, addr)]
    ensures Resolve(g, flat, sections, subs, addr) < |sections|
    ensures Resolve(g, flat, sections, subs, addr) == UNASSIGNED || 4 <= Resolve(g, flat, sections, subs, addr)
    ensures var sec := sections[flat[Page(g, addr)]];
            if sec.mr.Subpage? then
              && sec.mr.id < |subs| && PageOffset(g, addr) < |subs[sec.mr.id].sub|
              && subs[sec.mr.id].sub[PageOffset(g, addr)] == Resolve(g, flat, sections, subs, addr)
            else Resolve(g, flat, sections, subs, addr) == flat[Page(g, addr)]
  {
    var q := Page(g, addr);
    assert PageOk(g, flat, sections, subs, q);
    assert ByteOk(g, flat, sections, subs, addr);
    if flat[q] != UNASSIGNED {
      assert SubpageOk(g, flat, sections, subs, flat[q]);
    } else {
      assert sections[..4][0] == sections[0];
    }
  }

  /** A section that covers the address is the section of its page if it is a subpage,
      and else the section of the byte. */
  lemma MruFacts(g: Geometry, flat: seq<nat>, sections: seq<Section>, subs: seq<SubpageTable>, s: nat, addr: nat)
    requires g.Valid() && TableOk(g, flat, sections, subs) && addr < g.space && 4 <= s < |sections|
    requires Covers(g, sections[s], addr) && Page(g, addr) < |flat|
    ensures sections[s].mr.Subpage? ==> flat[Page(g, addr)] == s
    ensures !sections[s].mr.Subpage? ==> Resolve(g, flat, sections, subs, addr) == s
  {
    hide TableOk, Covers, Resolve;
    SectionFacts(g, flat, sections, subs, s);
    if sections[s].mr.Subpage? {
      LeafFacts(g, flat, sections, subs, Page(g, sections[s].base), addr);
    }
  }

  lemma SectionFacts(g: Geometry, flat: seq<nat>, sections: seq<Section>, subs: seq<SubpageTable>, s: nat)
    requires TableOk(g, flat, sections, subs) && 4 <= s < |sections|
    ensures SubpageOk(g, flat, sections, subs, s) && Exact(g, flat, sections, subs, s)
  {
  }

  predicate IsRam(mr: MemoryRegion) { mr.Region? && mr.ram }

  /** The section of the page covers every byte of it. */
  lemma MruCovers(g: Geometry, flat: seq<nat>, sections: seq<Section>, subs: seq<SubpageTable>, mru: Option<nat>,
                  addr: nat)
    requires g.Valid() && TableOk(g, flat, sections, subs) && addr < g.space
    ensures PageSection(g, flat, addr) < |sections| && Covers(g, sections[PageSection(g, flat, addr)], addr)
  {
    assert sections[..4][0] == sections[0];
    PageOf(g, Page(g, addr), addr);
    if Page(g, addr) < |flat| && flat[Page(g, addr)] != UNASSIGNED {
      LeafFacts(g, flat, sections, subs, Page(g, addr), addr);
    }
  }

  /** What a looked-up section says about the address. */
  lemma TranslateFacts(g: Geometry, flat: seq<nat>, sections: seq<Section>, subs: seq<SubpageTable>, addr: nat, s: nat)
    requires g.Valid() && TableOk(g, flat, sections, subs) && addr < g.space && s < |sections|
    requires s == Resolve(g, flat, sections, subs, addr) || s == PageSection(g, flat, addr)
    ensures Covers(g, sections[s], addr)
    ensures IsRam(sections[s].mr) ==> 4 <= s && s == Resolve(g, flat, sections, subs, addr)
    ensures IsRam(sections[s].mr) ==> sections[s].base <= addr < sections[s].base + sections[s].size
    ensures s == Resolve(g, flat, sections, subs, addr) ==>
              At(g, flat, sections, subs, addr) == if s == UNASSIGNED then None else Some(Translate(sections[s], addr))
    ensures sections[0].base == sections[0].offset == 0
  {
    assert sections[0] == sections[..4][0] && sections[1] == sections[..4][1]
        && sections[2] == sections[..4][2] && sections[3] == sections[..4][3];
    MruCovers(g, flat, sections, subs, None, addr);
    assert ByteOk(g, flat, sections, subs, addr);
    if IsRam(sections[s].mr) {
      assert Exact(g, flat, sections, subs, s);
      CoversRange(g, sections[s], addr);
    }
  }

  /** The bytes from `addr` to the end of its section are consecutive bytes of one region. */
  lemma ClampFacts(g: Geometry, flat: seq<nat>, sections: seq<Section>, subs: seq<SubpageTable>, addr: nat, s: nat,
                   len: nat)
    requires g.Valid() && TableOk(g, flat, sections, subs) && 4 <= s < |sections| && IsRam(sections[s].mr)
    requires sections[s].base <= addr && addr + len <= sections[s].base + sections[s].size
    ensures forall a: nat :: addr <= a < addr + len ==>
              At(g, flat, sections, subs, a) == Some(Translate(sections[s], a))
  {
    assert Exact(g, flat, sections, subs, s);
    forall a: nat | addr <= a < addr + len
      ensures At(g, flat, sections, subs, a) == Some(Translate(sections[s], a))
    {
      assert Covers(g, sections[s], a);
    }
  }

  lemma AllInUseElsewhere(g: Geometry, flat: seq<nat>, sections: seq<Section>, subs: seq<SubpageTable>, q: nat)
    requires AllInUse(g, flat, sections, subs)
    ensures forall p :: 0 <= p < |flat| && p != q ==> InUse(g, flat, sections, subs, p)
    ensures SameBytes(g, flat, sections, subs, flat, sections, subs)
  {
  }

  /** An overlay over a table that shows the same as another is an overlay over that one. */
  lemma OverlaySame(g: Geometry, f0: seq<nat>, s0: seq<Section>, t0: seq<SubpageTable>,
                    f1: seq<nat>, s1: seq<Section>, t1: seq<SubpageTable>,
                    f2: seq<nat>, s2: seq<Section>, t2: seq<SubpageTable>, sec: Section)
    requires 0 < g.pageSize && Overlaid(g, f1, s1, t1, f2, s2, t2, sec)
    requires SameBytes(g, f0, s0, t0, f1, s1, t1)
    ensures Overlaid(g, f0, s0, t0, f2, s2, t2, sec)
  {
  }

  /** What register_subpage finds at the start of its page. */
  lemma EnsureReady(g: Geometry, nodes: seq<Node>, root: Entry, flat: seq<nat>, sections: seq<Section>,
                    subs: seq<SubpageTable>,
                    sec: Section, q: nat)
    requires g.Valid() && TableOk(g, flat, sections, subs) && TreeMatches(g, nodes, root, flat)
    requires WithinPage(g, sec, q) && Free(g, flat, sections, subs, sec)
    ensures WalksBounded(g, nodes, root, |sections|)
    ensures q * g.pageSize < g.space
    ensures q < |flat| && flat[q] < |sections| && Find(g, nodes, sections, root, q * g.pageSize) == flat[q]
    ensures flat[q] == UNASSIGNED ==> sections[flat[q]].mr == IoUnassigned
    ensures flat[q] != UNASSIGNED ==> sections[flat[q]].mr.Subpage? && BytesFree(g, flat, sections, subs, sec, q)
  {
    MatchesFind(g, nodes, root, flat, sections, subs);
    FreeByte(g, flat, sections, subs, sec, q);
    PageOf(g, q, q * g.pageSize);
    assert sections[..4][0] == sections[0];
  }

  /** The table and the positions that subpage_register is given. */
  lemma RegisterReady(g: Geometry, flat: seq<nat>, sections: seq<Section>, subs: seq<SubpageTable>, sec: Section,
                      q: nat)
    requires TableOk(g, flat, sections, subs) && BytesFree(g, flat, sections, subs, sec, q)
    ensures q < |flat| && flat[q] < |sections| && sections[flat[q]].mr.Subpage?
    ensures sections[flat[q]].mr.id < |subs| && |subs[sections[flat[q]].mr.id].sub| == g.pageSize
    ensures q * g.pageSize <= sec.base && sec.base + sec.size <= q * g.pageSize + g.pageSize && 0 < sec.size
  {
    SubpageStart(g, flat, sections, subs, q);
  }

  lemma WholePagesOf(g: Geometry, sec: Section)
    requires g.Valid() && PageOffset(g, sec.base) == 0 && PageOffset(g, sec.size) == 0 && 0 < sec.size
    requires sec.base + sec.size <= g.space
    ensures WholePages(g, sec, Page(g, sec.base), Page(g, sec.size))
  {
    MultipleOf(sec.base, g.pageSize);
    MultipleOf(sec.size, g.pageSize);
  }

  /** What phys_page_set needs of pages that show no section. */
  /** The sections are in order, except that the bytes of page `q`'s subpage may all be unassigned yet. */
  ghost predicate HalfTable(g: Geometry, flat: seq<nat>, sections: seq<Section>, subs: seq<SubpageTable>, q: nat) {
    TableOk(g, flat, sections, subs) && forall p :: 0 <= p < |flat| && p != q ==> InUse(g, flat, sections, subs, p)
  }

  /** What a subpage for page `q` and its table make of the sections. */
  ghost predicate SubpageMade(g: Geometry, flat: seq<nat>, sections: seq<Section>, subs: seq<SubpageTable>,
                              flat': seq<nat>, sections': seq<Section>, subs': seq<SubpageTable>, sec: Section, q: nat)
  {
    && HalfTable(g, flat', sections', subs', q) && BytesFree(g, flat', sections', subs', sec, q)
    && SameBytes(g, flat, sections, subs, flat', sections', subs') && KeptFrom(flat, flat', q + 1)
  }

  lemma MakeSubpage(g: Geometry, flat: seq<nat>, sections: seq<Section>, subs: seq<SubpageTable>, sec: Section, q: nat,
                    page: Section, table: SubpageTable)
    requires g.Valid() && TableOk(g, flat, sections, subs) && AllInUse(g, flat, sections, subs)
    requires WithinPage(g, sec, q) && Free(g, flat, sections, subs, sec) && q < |flat| && flat[q] == UNASSIGNED
    requires page == Section(Subpage(|subs|), q * g.pageSize, 0, g.pageSize)
    requires table == BlankTable(g, q * g.pageSize)
    ensures PagesFree(g, flat, subs, page, q, 1)
    ensures var flat' := SetRange(flat, q, 1, |sections|);
            && |flat'| == |flat| && flat'[q] == |sections|
            && SubpageMade(g, flat, sections, subs, flat', sections + [page], subs + [table], sec, q)
  {
    FreshSubpageStep(g, flat, sections, subs, sec, q);
    OnePageSet(flat, q, |sections|);
    hide TableOk, AllInUse, Free, BytesFree, InUse, PagesFree, SameBytes, WithinPage, Geometry.Valid;
    assert WithTable(g, subs, page) == subs + [table];
  }

  lemma GeometryFacts(g: Geometry)
    requires g.Valid()
    ensures 2 <= g.fanout && 1 <= g.levels && 0 < g.pageSize
  {
  }

  /** What phys_page_set asks. */
  lemma SetReady(g: Geometry, nodes: seq<Node>, root: Entry, flat: seq<nat>, subs: seq<SubpageTable>, sec: Section,
                 first: nat, n: nat, index: nat)
    requires g.Valid() && TreeMatches(g, nodes, root, flat) && PagesFree(g, flat, subs, sec, first, n)
    requires index < g.pageSize && |nodes| <= NodeLimit(g, index)
    ensures first + n <= |flat| && first + n <= Span(g.fanout, g.levels) && 0 < g.fanout
    ensures Unassigned(g, nodes, root, g.levels, 0, first, n)
    ensures index < g.nil && |nodes| + 2 * g.levels - 1 <= g.nil
    ensures NodeLimit(g, index) + 2 * g.levels == NodeLimit(g, index + 1)
  {
    NodeBudget(g, index);
    assert g.pageSize <= g.pageSize * (2 * g.levels) by {
      MulMonotone(1, 2 * g.levels, g.pageSize);
    }
    hide NodeLimit, Span;
  }

  /** phys_page_set carries the flat map along. */
  lemma OnePageSet(flat: seq<nat>, q: nat, s: nat)
    requires q < |flat|
    ensures |SetRange(flat, q, 1, s)| == |flat| && SetRange(flat, q, 1, s)[q] == s
  {
  }

  lemma SetMatches(g: Geometry, nodes: seq<Node>, root: Entry, nodes': seq<Node>, root': Entry,
                   flat: seq<nat>, first: nat, n: nat, s: nat)
    requires TreeMatches(g, nodes, root, flat) && first + n <= |flat|
    requires WalksUpdated(g, nodes, root, nodes', root', g.levels, 0, first, first + n, s)
    ensures TreeMatches(g, nodes', root', SetRange(flat, first, n, s))
  {
  }

  /** The part of a section that starts after its first `d` bytes and is `m` bytes long. */
  ghost function PieceOf(sec: Section, d: nat, m: nat): Section {
    Section(sec.mr, sec.base + d, sec.offset + d, m)
  }

  /** TARGET_PAGE_ALIGN */
  function PageAlign(g: Geometry, addr: nat): nat
    requires 0 < g.pageSize
  {
    (addr + g.pageSize - 1) / g.pageSize * g.pageSize
  }

  /** The section numbers that register_subpage takes for a page: two if it has no subpage yet. */
  ghost function PageCost(flat: seq<nat>, q: nat): nat {
    if q < |flat| && flat[q] == UNASSIGNED then 2 else 1
  }

  /** What mem_add registers next of an aligned rest, and the section numbers it takes. */
  ghost function NextSize(g: Geometry, size: nat): nat {
    if size < g.pageSize then size else size - PageOffset(g, size)
  }

  ghost function NextCost(g: Geometry, flat: seq<nat>, base: nat, size: nat): nat {
    if size < g.pageSize then PageCost(flat, Page(g, base)) else 1
  }

  /** The section numbers that an aligned rest takes: one for its whole pages, and those of the page it ends in. */
  ghost function RestCost(g: Geometry, flat: seq<nat>, base: nat, size: nat): nat {
    if size == 0 || g.pageSize == 0 then 0
    else if size < g.pageSize then PageCost(flat, Page(g, base))
    else 1 + if PageOffset(g, size) == 0 then 0 else PageCost(flat, Page(g, base + size - PageOffset(g, size)))
  }

  /** The section numbers that mem_add takes for a section. */
  ghost function SectionCost(g: Geometry, flat: seq<nat>, sec: Section): nat
    requires 0 < g.pageSize
  {
    if PageOffset(g, sec.base) == 0 then RestCost(g, flat, sec.base, sec.size)
    else
      var left := PageAlign(g, sec.base) - sec.base;
      var head := if left < sec.size then left else sec.size;
      PageCost(flat, Page(g, sec.base))
      + if head < sec.size then RestCost(g, flat, sec.base + head, sec.size - head) else 0
  }

  lemma AtMostFive(g: Geometry, flat: seq<nat>, sec: Section)
    requires 0 < g.pageSize
    ensures SectionCost(g, flat, sec) <= 5
  {
    hide Page, PageOffset, PageAlign;
  }

  lemma HeadCost(g: Geometry, flat: seq<nat>, sec: Section, m: nat)
    requires g.Valid() && PageOffset(g, sec.base) != 0
    requires var left := PageAlign(g, sec.base) - sec.base; m == if left < sec.size then left else sec.size
    ensures SectionCost(g, flat, sec) == PageCost(flat, Page(g, sec.base))
            + RestCost(g, flat, sec.base + m, sec.size - m)
    ensures m < sec.size ==> Page(g, sec.base + m) == Page(g, sec.base) + 1
  {
    if m < sec.size {
      AlignUp(g, sec.base);
      PageOf(g, Page(g, sec.base) + 1, sec.base + m);
    }
  }

  lemma NoHeadCost(g: Geometry, flat: seq<nat>, sec: Section)
    requires g.Valid() && PageOffset(g, sec.base) == 0
    ensures SectionCost(g, flat, sec) == RestCost(g, flat, sec.base, sec.size)
  {
  }

  lemma NextCostStep(g: Geometry, flat: seq<nat>, base: nat, size: nat)
    requires g.Valid() && 0 < size && PageOffset(g, base) == 0
    ensures var n := NextSize(g, size);
            && n <= size
            && RestCost(g, flat, base, size) == NextCost(g, flat, base, size) + RestCost(g, flat, base + n, size - n)
  {
  }

  lemma NoRest(g: Geometry, flat: seq<nat>, base: nat)
    ensures RestCost(g, flat, base, 0) == 0
  {
  }

  /** From page `q` on, both maps are the same. */
  ghost predicate KeptFrom(f0: seq<nat>, f1: seq<nat>, q: nat) {
    |f1| == |f0| && forall p :: q <= p < |f0| ==> f1[p] == f0[p]
  }

  lemma KeptAll(f: seq<nat>, q: nat)
    ensures KeptFrom(f, f, q)
  {
  }

  lemma KeptThen(f0: seq<nat>, f1: seq<nat>, f2: seq<nat>, q: nat, r: nat)
    requires KeptFrom(f0, f1, q) && KeptFrom(f1, f2, r) && q <= r
    ensures KeptFrom(f0, f2, r)
  {
  }

  lemma SameCost(f0: seq<nat>, f1: seq<nat>, q: nat)
    requires KeptFrom(f0, f1, q)
    ensures PageCost(f1, q) == PageCost(f0, q)
  {
  }

  lemma NothingOverlaid(g: Geometry, f0: seq<nat>, s0: seq<Section>, t0: seq<SubpageTable>, sec: Section)
    requires g.Valid()
    ensures Overlaid(g, f0, s0, t0, f0, s0, t0, sec.(size := 0))
  {
  }

  /** The part of a free section that has not been registered yet is still free. */
  lemma PieceFree(g: Geometry, f0: seq<nat>, s0: seq<Section>, t0: seq<SubpageTable>,
                  f1: seq<nat>, s1: seq<Section>, t1: seq<SubpageTable>, sec: Section, d: nat, m: nat)
    requires d + m <= sec.size && sec.base + sec.size <= g.space
    requires Free(g, f0, s0, t0, sec) && Overlaid(g, f0, s0, t0, f1, s1, t1, sec.(size := d))
    ensures Free(g, f1, s1, t1, PieceOf(sec, d, m))
  {
    forall addr: nat | addr < g.space && Covers(g, PieceOf(sec, d, m), addr)
      ensures At(g, f1, s1, t1, addr) == None
    {
      CoversRange(g, PieceOf(sec, d, m), addr);
      CoversRange(g, sec.(size := d), addr);
      CoversRange(g, sec, addr);
    }
  }

  /** Registering the next part extends the registered prefix of the section. */
  lemma PieceOverlaid(g: Geometry, f0: seq<nat>, s0: seq<Section>, t0: seq<SubpageTable>,
                      f1: seq<nat>, s1: seq<Section>, t1: seq<SubpageTable>,
                      f2: seq<nat>, s2: seq<Section>, t2: seq<SubpageTable>, sec: Section, d: nat, m: nat)
    requires d + m <= sec.size && sec.base + sec.size <= g.space
    requires Overlaid(g, f0, s0, t0, f1, s1, t1, sec.(size := d))
    requires Overlaid(g, f1, s1, t1, f2, s2, t2, PieceOf(sec, d, m))
    ensures Overlaid(g, f0, s0, t0, f2, s2, t2, sec.(size := d + m))
  {
    forall addr: nat | addr < g.space
      ensures At(g, f2, s2, t2, addr)
           == if Covers(g, sec.(size := d + m), addr) then Some(Translate(sec.(size := d + m), addr))
              else At(g, f0, s0, t0, addr)
    {
      CoversRange(g, PieceOf(sec, d, m), addr);
      CoversRange(g, sec.(size := d), addr);
      CoversRange(g, sec.(size := d + m), addr);
    }
  }

  lemma AlignUp(g: Geometry, addr: nat)
    requires 0 < g.pageSize && PageOffset(g, addr) != 0
    ensures PageAlign(g, addr) == Page(g, addr) * g.pageSize + g.pageSize
    ensures PageOffset(g, PageAlign(g, addr)) == 0
  {
    var q, r, size := Page(g, addr), PageOffset(g, addr), g.pageSize;
    assert addr + size - 1 == size * (q + 1) + (r - 1);
    DivUnique(addr + size - 1, size, q + 1, r - 1);
    ModOfMultiple(size, q + 1);
  }

  lemma AlignAfter(g: Geometry, addr: nat)
    requires 0 < g.pageSize && PageOffset(g, addr) != 0
    ensures addr < PageAlign(g, addr)
  {
    AlignUp(g, addr);
    PageOf(g, Page(g, addr), addr);
  }

  lemma OffsetBound(g: Geometry, size: nat)
    ensures PageOffset(g, size) <= size
  {
  }

  /** An unaligned section's first piece ends with its page or with the section. */
  lemma HeadPiece(g: Geometry, sec: Section, m: nat)
    requires g.Valid() && !sec.mr.Subpage? && 0 < sec.size && sec.base + sec.size <= g.space
    requires PageOffset(g, sec.base) != 0
    requires var left := PageAlign(g, sec.base) - sec.base; m == if left < sec.size then left else sec.size
    ensures WithinPage(g, sec.(size := m), Page(g, sec.base))
    ensures m == sec.size || PageOffset(g, sec.base + m) == 0
  {
    AlignUp(g, sec.base);
    PageOf(g, Page(g, sec.base), sec.base);
  }

  /** An aligned rest shorter than a page lies within one. */
  lemma TailPiece(g: Geometry, now: Section)
    requires g.Valid() && !now.mr.Subpage? && 0 < now.size < g.pageSize && PageOffset(g, now.base) == 0
    requires now.base + now.size <= g.space
    ensures WithinPage(g, now, Page(g, now.base))
  {
    MultipleOf(now.base, g.pageSize);
  }

  /** The whole pages of an aligned rest leave less than a page. */
  lemma WholePiece(g: Geometry, base: nat, size: nat, m: nat)
    requires g.Valid() && PageOffset(g, base) == 0 && g.pageSize <= size && m == size - PageOffset(g, size)
    ensures 0 < m <= size && PageOffset(g, m) == 0 && size - m < g.pageSize && PageOffset(g, base + m) == 0
    ensures Page(g, base + m) == Page(g, base) + Page(g, m)
  {
    var k, j := size / g.pageSize, base / g.pageSize;
    assert m == g.pageSize * k;
    MultipleOf(base, g.pageSize);
    ModOfMultiple(g.pageSize, k);
    MulSum(g.pageSize, j, k);
    ModOfMultiple(g.pageSize, j + k);
    DivUnique(base + m, g.pageSize, j + k, 0);
    DivUnique(m, g.pageSize, k, 0);
  }
}
