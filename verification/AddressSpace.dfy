/** The page tree of an address space together with its table of sections (qemu/exec.c): phys_page_find
    against the flat map of pages, before and after compaction, and what adding sections changes. */
module AddressSpace {
  import opened Common
  import opened Arithmetic
  import opened RadixTree
  import opened PhysPageSet
  import opened PhysPageCompact
  import opened Dispatch
  import opened DispatchUpdates

  /** Each section in the tree shows at exactly the pages it covers. */
  ghost predicate LeavesExact(g: Geometry, nodes: seq<Node>, root: Entry, sections: seq<Section>) {
    && 0 < g.fanout && 0 < g.pageSize
    && forall q: nat, addr: nat :: Contains(g.fanout, g.levels, 0, q) && addr < g.space
         && LeafCovers(g, nodes, root, sections, q, addr)
         ==> Walk(g, nodes, root, g.levels, Page(g, addr)) == Walk(g, nodes, root, g.levels, q)
  }

  /** The section that shows at page `q` covers `addr`. */
  ghost predicate LeafCovers(g: Geometry, nodes: seq<Node>, root: Entry, sections: seq<Section>, q: nat, addr: nat)
    requires 0 < g.fanout
  {
    var s := Walk(g, nodes, root, g.levels, q);
    s != UNASSIGNED && s < |sections| && Covers(g, sections[s], addr)
  }

  lemma PageInTree(g: Geometry, addr: nat)
    requires g.Valid() && addr < g.space
    ensures Contains(g.fanout, g.levels, 0, Page(g, addr))
  {
    DivBound(addr, g.pageSize, Span(g.fanout, g.levels));
  }

  /** Compaction preserves phys_page_find at every address: the pages for which a compacted path
      reaches another leaf are unassigned, and section_covers_addr turns that leaf down. */
  lemma CompactionPreservesFind(g: Geometry, nodes: seq<Node>, root: Entry, nodes': seq<Node>, root': Entry,
                                sections: seq<Section>, addr: nat)
    requires g.Valid() && addr < g.space
    requires LeavesExact(g, nodes, root, sections)
    requires Compacted(g, nodes, root, nodes', root', g.levels, 0)
    ensures Find(g, nodes', sections, root', addr) == Find(g, nodes, sections, root, addr)
  {
    var p := Page(g, addr);
    PageInTree(g, addr);
    assert SameOrStray(g, nodes, root, nodes', root', g.levels, 0, p);
    var w, w' := Walk(g, nodes, root, g.levels, p), Walk(g, nodes', root', g.levels, p);
    if w' != w && w' < |sections| && Covers(g, sections[w'], addr) {
      var q: nat :| Contains(g.fanout, g.levels, 0, q) && Walk(g, nodes, root, g.levels, q) == w';
      assert LeafCovers(g, nodes, root, sections, q, addr);
    }
  }

  /** The tree shows exactly the flat map. */
  ghost predicate TreeMatches(g: Geometry, nodes: seq<Node>, root: Entry, flat: seq<nat>) {
    && 0 < g.fanout && |flat| == Span(g.fanout, g.levels)
    && forall q: nat :: q < |flat| ==> Walk(g, nodes, root, g.levels, q) == flat[q]
  }

  /** phys_page_find agrees with the flat map at every address. */
  ghost predicate FindMatches(g: Geometry, nodes: seq<Node>, sections: seq<Section>, root: Entry, flat: seq<nat>) {
    && g.Valid() && |flat| == Span(g.fanout, g.levels)
    && forall addr: nat :: addr < g.space ==>
         Page(g, addr) < |flat| && Find(g, nodes, sections, root, addr) == flat[Page(g, addr)]
  }

  /** Every leaf is a section number. */
  ghost predicate WalksBounded(g: Geometry, nodes: seq<Node>, root: Entry, n: nat) {
    0 < g.fanout && forall q: nat :: Contains(g.fanout, g.levels, 0, q) ==> Walk(g, nodes, root, g.levels, q) < n
  }

  /** The section of a page covers every byte of the page, and of every page it covers it is the section. */
  lemma LeafFacts(g: Geometry, flat: seq<nat>, sections: seq<Section>, subs: seq<SubpageTable>, q: nat, addr: nat)
    requires TableOk(g, flat, sections, subs) && q < |flat| && addr < g.space && flat[q] != UNASSIGNED
    ensures 4 <= flat[q] < |sections|
    ensures IsPage(g, q, addr) ==> Covers(g, sections[flat[q]], addr)
    ensures Covers(g, sections[flat[q]], addr) ==>
              Page(g, addr) < |flat| && flat[Page(g, addr)] == flat[q]
  {
    assert PageOk(g, flat, sections, subs, q);
    var s := flat[q];
    var first: nat, n: nat :| LeafPages(g, flat, sections[s], s, first, n) && first <= q < first + n;
    var r := Page(g, addr);
    PageOf(g, r, addr);
    PageOf(g, q, addr);
    CoversPages(g, sections[s], first, n, r, addr);
  }

  lemma FindShowsFlat(g: Geometry, nodes: seq<Node>, root: Entry, flat: seq<nat>, sections: seq<Section>,
                      subs: seq<SubpageTable>, addr: nat)
    requires g.Valid() && TreeMatches(g, nodes, root, flat) && TableOk(g, flat, sections, subs) && addr < g.space
    ensures Page(g, addr) < |flat| && Find(g, nodes, sections, root, addr) == flat[Page(g, addr)]
  {
    hide TableOk, Covers, Span;
    var q := Page(g, addr);
    PageInTree(g, addr);
    PageOf(g, q, addr);
    TableSize(g, flat, sections, subs);
    if flat[q] != UNASSIGNED {
      LeafFacts(g, flat, sections, subs, q, addr);
    }
  }

  lemma TableSize(g: Geometry, flat: seq<nat>, sections: seq<Section>, subs: seq<SubpageTable>)
    requires TableOk(g, flat, sections, subs)
    ensures forall q: nat :: Contains(g.fanout, g.levels, 0, q) <==> q < |flat|
  {
  }

  lemma LeafShowsFlat(g: Geometry, nodes: seq<Node>, root: Entry, flat: seq<nat>, sections: seq<Section>,
                      subs: seq<SubpageTable>, q: nat, addr: nat)
    requires g.Valid() && TreeMatches(g, nodes, root, flat) && TableOk(g, flat, sections, subs)
    requires Contains(g.fanout, g.levels, 0, q) && addr < g.space && LeafCovers(g, nodes, root, sections, q, addr)
    ensures Walk(g, nodes, root, g.levels, Page(g, addr)) == Walk(g, nodes, root, g.levels, q)
  {
    hide TableOk, Covers, Span;
    TableSize(g, flat, sections, subs);
    LeafFacts(g, flat, sections, subs, q, addr);
  }

  lemma MatchesFind(g: Geometry, nodes: seq<Node>, root: Entry, flat: seq<nat>, sections: seq<Section>,
                    subs: seq<SubpageTable>)
    requires g.Valid() && TreeMatches(g, nodes, root, flat) && TableOk(g, flat, sections, subs)
    ensures FindMatches(g, nodes, sections, root, flat)
    ensures LeavesExact(g, nodes, root, sections)
    ensures WalksBounded(g, nodes, root, |sections|)
  {
    hide Find, LeafCovers, Walk;
    forall addr: nat | addr < g.space
      ensures Page(g, addr) < |flat| && Find(g, nodes, sections, root, addr) == flat[Page(g, addr)]
    {
      FindShowsFlat(g, nodes, root, flat, sections, subs, addr);
    }
    forall q: nat, addr: nat | Contains(g.fanout, g.levels, 0, q) && addr < g.space
      && LeafCovers(g, nodes, root, sections, q, addr)
      ensures Walk(g, nodes, root, g.levels, Page(g, addr)) == Walk(g, nodes, root, g.levels, q)
    {
      LeafShowsFlat(g, nodes, root, flat, sections, subs, q, addr);
    }
    forall q: nat | Contains(g.fanout, g.levels, 0, q)
      ensures Walk(g, nodes, root, g.levels, q) < |sections|
    {
      assert PageOk(g, flat, sections, subs, q);
    }
  }

  /** A compacted tree still agrees with the flat map. */
  lemma CompactedMatches(g: Geometry, nodes: seq<Node>, root: Entry, nodes': seq<Node>, root': Entry,
                         flat: seq<nat>, sections: seq<Section>, subs: seq<SubpageTable>)
    requires g.Valid() && TreeMatches(g, nodes, root, flat) && TableOk(g, flat, sections, subs)
    requires Compacted(g, nodes, root, nodes', root', g.levels, 0)
    ensures FindMatches(g, nodes', sections, root', flat)
    ensures WalksBounded(g, nodes', root', |sections|)
  {
    MatchesFind(g, nodes, root, flat, sections, subs);
    forall addr: nat | addr < g.space
      ensures Page(g, addr) < |flat| && Find(g, nodes', sections, root', addr) == flat[Page(g, addr)]
    {
      CompactionPreservesFind(g, nodes, root, nodes', root', sections, addr);
    }
    forall q: nat | Contains(g.fanout, g.levels, 0, q)
      ensures Walk(g, nodes', root', g.levels, q) < |sections|
    {
      assert SameOrStray(g, nodes, root, nodes', root', g.levels, 0, q);
    }
  }

  /** Region and region offset of a byte according to the table; None if it is unassigned. */
  ghost function At(g: Geometry, flat: seq<nat>, sections: seq<Section>, subs: seq<SubpageTable>, addr: nat)
    : Option<(MemoryRegion, int)>
  {
    var t := Resolve(g, flat, sections, subs, addr);
    if t == UNASSIGNED || |sections| <= t then None else Some(Translate(sections[t], addr))
  }

  function Translate(sec: Section, addr: nat): (MemoryRegion, int) {
    (sec.mr, sec.offset + addr - sec.base)
  }

  /** Every page that shows a section has an assigned byte. */
  ghost predicate AllInUse(g: Geometry, flat: seq<nat>, sections: seq<Section>, subs: seq<SubpageTable>) {
    0 < g.pageSize && forall q :: 0 <= q < |flat| ==> InUse(g, flat, sections, subs, q)
  }

  /** A new section `sec` shows at the bytes it covers, and nothing else changed. */
  ghost predicate Overlaid(g: Geometry, flat: seq<nat>, sections: seq<Section>, subs: seq<SubpageTable>,
                           flat': seq<nat>, sections': seq<Section>, subs': seq<SubpageTable>, sec: Section)
  {
    && 0 < g.pageSize
    && forall addr: nat :: addr < g.space ==>
         At(g, flat', sections', subs', addr)
         == if Covers(g, sec, addr) then Some(Translate(sec, addr)) else At(g, flat, sections, subs, addr)
  }

  /** Both tables show the same at every byte. */
  ghost predicate SameBytes(g: Geometry, f0: seq<nat>, s0: seq<Section>, t0: seq<SubpageTable>,
                            f1: seq<nat>, s1: seq<Section>, t1: seq<SubpageTable>)
  {
    0 < g.pageSize && forall addr: nat :: addr < g.space ==> At(g, f1, s1, t1, addr) == At(g, f0, s0, t0, addr)
  }

  /** None of the bytes of `sec` is assigned. */
  ghost predicate Free(g: Geometry, flat: seq<nat>, sections: seq<Section>, subs: seq<SubpageTable>, sec: Section) {
    && 0 < g.pageSize
    && forall addr: nat :: addr < g.space && Covers(g, sec, addr) ==> At(g, flat, sections, subs, addr) == None
  }

  lemma FreeResolves(g: Geometry, flat: seq<nat>, sections: seq<Section>, subs: seq<SubpageTable>, sec: Section,
                     addr: nat)
    requires TableOk(g, flat, sections, subs) && Free(g, flat, sections, subs, sec) && addr < g.space
    requires Covers(g, sec, addr)
    ensures Resolve(g, flat, sections, subs, addr) == UNASSIGNED
  {
    assert ByteOk(g, flat, sections, subs, addr);
  }

  /** Whole pages without an assigned byte show no section. */
  lemma FreePages(g: Geometry, flat: seq<nat>, sections: seq<Section>, subs: seq<SubpageTable>, sec: Section,
                  first: nat, n: nat)
    requires g.Valid() && TableOk(g, flat, sections, subs) && AllInUse(g, flat, sections, subs)
    requires WholePages(g, sec, first, n) && Free(g, flat, sections, subs, sec) && !sec.mr.Subpage?
    ensures PagesFree(g, flat, subs, sec, first, n)
  {
    PagesInTree(g, first, n);
    forall p | first <= p < first + n
      ensures flat[p] == UNASSIGNED
    {
      assert InUse(g, flat, sections, subs, p);
      if flat[p] != UNASSIGNED {
        var addr: nat :| IsPage(g, p, addr) && addr < g.space && Resolve(g, flat, sections, subs, addr) != UNASSIGNED;
        CoversPages(g, sec, first, n, p, addr);
        FreeResolves(g, flat, sections, subs, sec, addr);
      }
    }
  }

  lemma PagesInTree(g: Geometry, first: nat, n: nat)
    requires g.Valid() && first * g.pageSize + n * g.pageSize <= g.space
    ensures first + n <= Span(g.fanout, g.levels)
  {
    var f := Span(g.fanout, g.levels);
    MulSum(g.pageSize, first, n);
    if f < first + n {
      MulStep(f, first + n, g.pageSize);
    }
  }

  /** Where the bytes of the table change only from unassigned, pages in use stay in use. */
  lemma InUseKept(g: Geometry, flat: seq<nat>, sections: seq<Section>, subs: seq<SubpageTable>,
                  flat': seq<nat>, sections': seq<Section>, subs': seq<SubpageTable>, q: nat, sec: Section)
    requires 0 < g.pageSize && q < |flat| == |flat'| && flat'[q] == flat[q] && InUse(g, flat, sections, subs, q)
    requires forall addr: nat :: addr < g.space && !Covers(g, sec, addr) ==>
               Resolve(g, flat', sections', subs', addr) == Resolve(g, flat, sections, subs, addr)
    requires forall addr: nat :: addr < g.space && Covers(g, sec, addr) ==>
               Resolve(g, flat', sections', subs', addr) != UNASSIGNED
    ensures InUse(g, flat', sections', subs', q)
  {
  }

  /** register_multipage on the table. */
  lemma MultipageStep(g: Geometry, flat: seq<nat>, sections: seq<Section>, subs: seq<SubpageTable>, sec: Section,
                      first: nat, n: nat)
    requires g.Valid() && TableOk(g, flat, sections, subs) && AllInUse(g, flat, sections, subs)
    requires WholePages(g, sec, first, n) && Free(g, flat, sections, subs, sec) && !sec.mr.Subpage?
    ensures PagesFree(g, flat, subs, sec, first, n)
    ensures var flat', sections' := SetRange(flat, first, n, |sections|), sections + [sec];
            && TableOk(g, flat', sections', subs) && AllInUse(g, flat', sections', subs)
            && Overlaid(g, flat, sections, subs, flat', sections', subs, sec)
  {
    FreePages(g, flat, sections, subs, sec, first, n);
    PagesAdded(g, flat, sections, subs, sec, first, n);
    var flat', sections' := SetRange(flat, first, n, |sections|), sections + [sec];
    forall addr: nat | addr < g.space
      ensures Resolve(g, flat', sections', subs, addr)
           == if Covers(g, sec, addr) then |sections| else Resolve(g, flat, sections, subs, addr)
    {
      AddedResolve(g, flat, sections, subs, sec, first, n, addr);
    }
    OverlayFrom(g, flat, sections, subs, flat', subs, sec);
    forall q | 0 <= q < |flat'|
      ensures InUse(g, flat', sections', subs, q)
    {
      if first <= q < first + n {
        NewPageInUse(g, sec, first, n, q);
        assert Resolve(g, flat', sections', subs, q * g.pageSize) == |sections|;
      } else {
        assert InUse(g, flat, sections, subs, q);
        InUseKept(g, flat, sections, subs, flat', sections', subs, q, sec);
      }
    }
  }

  lemma NewPageInUse(g: Geometry, sec: Section, first: nat, n: nat, q: nat)
    requires 0 < g.pageSize && WholePages(g, sec, first, n) && first <= q < first + n
    ensures IsPage(g, q, q * g.pageSize) && q * g.pageSize < g.space && Covers(g, sec, q * g.pageSize)
  {
    PageOrder(first, n, q, g.pageSize);
  }

  lemma OverlayFrom(g: Geometry, flat: seq<nat>, sections: seq<Section>, subs: seq<SubpageTable>,
                    flat': seq<nat>, subs': seq<SubpageTable>, sec: Section)
    requires TableOk(g, flat, sections, subs)
    requires forall addr: nat :: addr < g.space ==>
               Resolve(g, flat', sections + [sec], subs', addr)
               == if Covers(g, sec, addr) then |sections| else Resolve(g, flat, sections, subs, addr)
    ensures Overlaid(g, flat, sections, subs, flat', sections + [sec], subs', sec)
  {
    forall addr: nat | addr < g.space
      ensures At(g, flat', sections + [sec], subs', addr)
           == if Covers(g, sec, addr) then Some(Translate(sec, addr)) else At(g, flat, sections, subs, addr)
    {
      assert ByteOk(g, flat, sections, subs, addr);
    }
  }

  /** `sec` lies within page `q`. */
  ghost predicate WithinPage(g: Geometry, sec: Section, q: nat) {
    && IsPage(g, q, sec.base) && 0 < sec.size && !sec.mr.Subpage?
    && sec.base + sec.size <= q * g.pageSize + g.pageSize && sec.base + sec.size <= g.space
  }

  /** The page of a section without assigned bytes is unassigned or a subpage. */
  lemma FreeByte(g: Geometry, flat: seq<nat>, sections: seq<Section>, subs: seq<SubpageTable>, sec: Section, q: nat)
    requires g.Valid() && TableOk(g, flat, sections, subs)
    requires WithinPage(g, sec, q) && Free(g, flat, sections, subs, sec)
    ensures q < |flat| && flat[q] < |sections|
    ensures flat[q] == UNASSIGNED || (4 <= flat[q] && sections[flat[q]].mr.Subpage?)
    ensures flat[q] != UNASSIGNED ==> BytesFree(g, flat, sections, subs, sec, q)
  {
    PageInTree(g, sec.base);
    PageOf(g, q, sec.base);
    FreeResolves(g, flat, sections, subs, sec, sec.base);
    assert PageOk(g, flat, sections, subs, q);
    forall addr: nat | addr < g.space && Covers(g, sec, addr)
      ensures Resolve(g, flat, sections, subs, addr) == UNASSIGNED
    {
      FreeResolves(g, flat, sections, subs, sec, addr);
    }
  }

  /** register_subpage's second half on the table: the bytes are registered. */
  lemma SubpageStep(g: Geometry, flat: seq<nat>, sections: seq<Section>, subs: seq<SubpageTable>, sec: Section, q: nat)
    requires g.Valid() && TableOk(g, flat, sections, subs) && BytesFree(g, flat, sections, subs, sec, q)
    requires forall p :: 0 <= p < |flat| && p != q ==> InUse(g, flat, sections, subs, p)
    ensures SubpageOk(g, flat, sections, subs, flat[q])
    ensures var sections', subs' := sections + [sec], WithBytes(g, flat, sections, subs, sec, q);
            && TableOk(g, flat, sections', subs') && AllInUse(g, flat, sections', subs')
            && Overlaid(g, flat, sections, subs, flat, sections', subs', sec)
  {
    BytesAdded(g, flat, sections, subs, sec, q);
    var sections', subs' := sections + [sec], WithBytes(g, flat, sections, subs, sec, q);
    forall addr: nat | addr < g.space
      ensures Resolve(g, flat, sections', subs', addr)
           == if Covers(g, sec, addr) then |sections| else Resolve(g, flat, sections, subs, addr)
    {
      BytesResolve(g, flat, sections, subs, sec, q, addr);
    }
    OverlayFrom(g, flat, sections, subs, flat, subs', sec);
    forall p | 0 <= p < |flat|
      ensures InUse(g, flat, sections', subs', p)
    {
      if p == q {
        assert Resolve(g, flat, sections', subs', sec.base) == |sections|;
      } else {
        InUseKept(g, flat, sections, subs, flat, sections', subs', p, sec);
      }
    }
  }

  /** register_subpage's first half on the table: an unassigned page gets an empty subpage. */
  lemma FreshSubpageStep(g: Geometry, flat: seq<nat>, sections: seq<Section>, subs: seq<SubpageTable>, sec: Section,
                         q: nat)
    requires g.Valid() && TableOk(g, flat, sections, subs) && AllInUse(g, flat, sections, subs)
    requires WithinPage(g, sec, q) && Free(g, flat, sections, subs, sec) && q < |flat| && flat[q] == UNASSIGNED
    ensures var page := Section(Subpage(|subs|), q * g.pageSize, 0, g.pageSize);
            var flat', sections', subs' := SetRange(flat, q, 1, |sections|), sections + [page],
              WithTable(g, subs, page);
            && PagesFree(g, flat, subs, page, q, 1)
            && TableOk(g, flat', sections', subs')
            && BytesFree(g, flat', sections', subs', sec, q)
            && (forall p :: 0 <= p < |flat'| && p != q ==> InUse(g, flat', sections', subs', p))
            && SameBytes(g, flat, sections, subs, flat', sections', subs')
  {
    var page := Section(Subpage(|subs|), q * g.pageSize, 0, g.pageSize);
    PageEnd(g, sec.base, q);
    assert PagesFree(g, flat, subs, page, q, 1);
    PagesAdded(g, flat, sections, subs, page, q, 1);
    var flat', sections', subs' := SetRange(flat, q, 1, |sections|), sections + [page], WithTable(g, subs, page);
    forall addr: nat | addr < g.space
      ensures Resolve(g, flat', sections', subs', addr) == Resolve(g, flat, sections, subs, addr)
      ensures At(g, flat', sections', subs', addr) == At(g, flat, sections, subs, addr)
    {
      AddedResolve(g, flat, sections, subs, page, q, 1, addr);
      assert ByteOk(g, flat, sections, subs, addr);
    }
    forall p | 0 <= p < |flat'| && p != q
      ensures InUse(g, flat', sections', subs', p)
    {
      assert InUse(g, flat, sections, subs, p);
    }
    forall addr: nat | addr < g.space && Covers(g, sec, addr)
      ensures Resolve(g, flat', sections', subs', addr) == UNASSIGNED
    {
      FreeResolves(g, flat, sections, subs, sec, addr);
    }
  }

  /** The page of an address of the address space lies wholly within it. */
  lemma PageEnd(g: Geometry, addr: nat, q: nat)
    requires g.Valid() && addr < g.space && IsPage(g, q, addr)
    ensures q * g.pageSize + g.pageSize <= g.space
  {
    var k := g.space / g.pageSize;
    MultipleOf(g.space, g.pageSize);
    if k <= q {
      MulMonotone(k, q, g.pageSize);
    } else {
      MulStep(q, k, g.pageSize);
    }
  }
}
