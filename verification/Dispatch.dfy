/** The dispatch table of an address space: sections, the flat map from pages to
    sections that the radix tree stands for, and the subpage tables (qemu/exec.c). */
module Dispatch {
  import opened Arithmetic
  import opened RadixTree

  datatype MemoryRegion =
    | IoUnassigned | IoNotDirty | IoRom | IoWatch
    | Subpage(id: nat)
    | Region(id: nat, ram: bool)

  /** A MemoryRegionSection: `base` is offset_within_address_space and `offset`
      is offset_within_region. */
  datatype Section = Section(mr: MemoryRegion, base: nat, offset: nat, size: nat)

  /** A subpage_t: the section of each byte of the page at `base`. */
  datatype SubpageTable = SubpageTable(base: nat, sub: seq<nat>)

  /** The page an address lies in: addr >> TARGET_PAGE_BITS. */
  function Page(g: Geometry, addr: nat): nat {
    if 0 < g.pageSize then addr / g.pageSize else 0
  }

  /** SUBPAGE_IDX: the position of an address in its page. */
  function PageOffset(g: Geometry, addr: nat): nat {
    if 0 < g.pageSize then addr % g.pageSize else 0
  }

  /** section_covers_addr */
  predicate Covers(g: Geometry, sec: Section, addr: nat) {
    sec.size >= g.space || (sec.base <= addr && addr < sec.base + sec.size)
  }

  /** phys_page_find on the tree (nodes, root). */
  function Find(g: Geometry, nodes: seq<Node>, sections: seq<Section>, root: Entry, addr: nat): nat
    requires 0 < g.fanout
  {
    var s := Walk(g, nodes, root, g.levels, Page(g, addr));
    if s < |sections| && Covers(g, sections[s], addr) then s else UNASSIGNED
  }

  /** The section of a byte: its page's section, or the entry of its page's subpage table. */
  function Resolve(g: Geometry, flat: seq<nat>, sections: seq<Section>, subs: seq<SubpageTable>, addr: nat): nat
  {
    var q := Page(g, addr);
    if q < |flat| then Subsection(g, flat[q], sections, subs, addr) else UNASSIGNED
  }

  /** Going from section `s` through its subpage table, if it has one. */
  function Subsection(g: Geometry, s: nat, sections: seq<Section>, subs: seq<SubpageTable>, addr: nat): nat
  {
    if s < |sections| && sections[s].mr.Subpage? && sections[s].mr.id < |subs|
       && PageOffset(g, addr) < |subs[sections[s].mr.id].sub|
    then subs[sections[s].mr.id].sub[PageOffset(g, addr)]
    else s
  }

  ghost predicate IsPage(g: Geometry, q: nat, addr: nat) {
    q * g.pageSize <= addr < q * g.pageSize + g.pageSize
  }

  lemma PageOf(g: Geometry, q: nat, addr: nat)
    requires 0 < g.pageSize
    ensures IsPage(g, q, addr) <==> Page(g, addr) == q
    ensures Page(g, addr) == q ==> PageOffset(g, addr) == addr - q * g.pageSize
  {
    DivRange(addr, g.pageSize);
    var k := Page(g, addr);
    if k < q {
      MulStep(k, q, g.pageSize);
    } else if q < k {
      MulStep(q, k, g.pageSize);
    }
  }

  /** The section is made of the whole pages [first, first + n). */
  ghost predicate WholePages(g: Geometry, sec: Section, first: nat, n: nat) {
    && 0 < n && sec.base == first * g.pageSize && sec.size == n * g.pageSize && sec.base + sec.size <= g.space
  }

  lemma CoversPages(g: Geometry, sec: Section, first: nat, n: nat, q: nat, addr: nat)
    requires 0 < g.pageSize && WholePages(g, sec, first, n) && IsPage(g, q, addr) && addr < g.space
    ensures Covers(g, sec, addr) <==> first <= q < first + n
  {
    PageOrder(first, n, q, g.pageSize);
  }

  lemma PageOrder(first: nat, n: nat, q: nat, size: nat)
    ensures q < first ==> q * size + size <= first * size
    ensures first <= q ==> first * size <= q * size
    ensures q < first + n ==> q * size + size <= first * size + n * size
    ensures first + n <= q ==> first * size + n * size <= q * size
  {
    if q < first {
      MulStep(q, first, size);
    } else {
      MulMonotone(first, q, size);
    }
    MulSum(size, first, n);
    if q < first + n {
      MulStep(q, first + n, size);
    } else {
      MulMonotone(first + n, q, size);
    }
  }

  /** Page `q` shows section flat[q], whose pages are exactly those that show it. */
  ghost predicate PageOk(g: Geometry, flat: seq<nat>, sections: seq<Section>, subs: seq<SubpageTable>, q: nat)
    requires q < |flat|
  {
    var s := flat[q];
    s == UNASSIGNED ||
    (&& 4 <= s < |sections|
     && exists first: nat, n: nat :: LeafPages(g, flat, sections[s], s, first, n) && first <= q < first + n)
  }

  ghost predicate LeafPages(g: Geometry, flat: seq<nat>, sec: Section, s: nat, first: nat, n: nat) {
    && WholePages(g, sec, first, n) && first + n <= |flat|
    && (sec.mr.Subpage? ==> n == 1)
    && forall p :: first <= p < first + n ==> flat[p] == s
  }

  /** A subpage section is the section of its page and owns the table of that page. */
  ghost predicate SubpageOk(g: Geometry, flat: seq<nat>, sections: seq<Section>, subs: seq<SubpageTable>, s: nat)
    requires s < |sections|
  {
    sections[s].mr.Subpage? ==>
      && Page(g, sections[s].base) < |flat| && flat[Page(g, sections[s].base)] == s
      && sections[s].mr.id < |subs|
      && subs[sections[s].mr.id].base == sections[s].base
      && |subs[sections[s].mr.id].sub| == g.pageSize
  }

  /** The section of a byte is unassigned or an ordinary section that covers it. */
  ghost predicate ByteOk(g: Geometry, flat: seq<nat>, sections: seq<Section>, subs: seq<SubpageTable>, addr: nat)
  {
    var t := Resolve(g, flat, sections, subs, addr);
    t == UNASSIGNED || (4 <= t < |sections| && !sections[t].mr.Subpage? && Covers(g, sections[t], addr))
  }

  /** Every byte that an ordinary section covers shows that section. */
  ghost predicate Exact(g: Geometry, flat: seq<nat>, sections: seq<Section>, subs: seq<SubpageTable>, t: nat)
    requires t < |sections|
  {
    !sections[t].mr.Subpage? ==>
      forall addr: nat :: addr < g.space && Covers(g, sections[t], addr) ==> Resolve(g, flat, sections, subs, addr) == t
  }

  function Dummy(g: Geometry, mr: MemoryRegion): Section { Section(mr, 0, 0, g.space) }

  ghost predicate TableOk(g: Geometry, flat: seq<nat>, sections: seq<Section>, subs: seq<SubpageTable>) {
    && 0 < g.pageSize
    && |flat| == Span(g.fanout, g.levels) && 4 <= |sections|
    && sections[..4] == [Dummy(g, IoUnassigned), Dummy(g, IoNotDirty), Dummy(g, IoRom), Dummy(g, IoWatch)]
    && (forall q :: 0 <= q < |flat| ==> PageOk(g, flat, sections, subs, q))
    && (forall s :: 4 <= s < |sections| ==> SubpageOk(g, flat, sections, subs, s))
    && (forall addr: nat :: addr < g.space ==> ByteOk(g, flat, sections, subs, addr))
    && (forall t :: 4 <= t < |sections| ==> Exact(g, flat, sections, subs, t))
    && (forall s :: 4 <= s < |sections| ==> sections[s].base + sections[s].size <= g.space)
  }

  /** A page with a subpage table has some assigned byte. */
  ghost predicate InUse(g: Geometry, flat: seq<nat>, sections: seq<Section>, subs: seq<SubpageTable>, q: nat)
    requires q < |flat|
  {
    flat[q] != UNASSIGNED ==>
      exists addr: nat :: IsPage(g, q, addr) && addr < g.space && Resolve(g, flat, sections, subs, addr) != UNASSIGNED
  }

  /** The positions [first, first + n) now hold section `s`. */
  function SetRange(flat: seq<nat>, first: nat, n: nat, s: nat): (flat': seq<nat>)
    requires first + n <= |flat|
    ensures |flat'| == |flat|
    ensures forall p :: 0 <= p < |flat| ==> flat'[p] == if first <= p < first + n then s else flat[p]
  {
    flat[..first] + seq(n, i => s) + flat[first + n..]
  }
}
