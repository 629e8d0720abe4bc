/** The soft TLB: main and victim tables, their iotlb companions, and the region of large pages
    (qemu/cputlb.c), for a 32-bit target with pages of 1 KiB (qemu/target-arm/cpu.h). */
module Tlb {
  // TARGET_PAGE_SIZE is 0x400, TARGET_PAGE_MASK 0xFFFF_FC00, TLB_INVALID_MASK 0x200, TLB_NOTDIRTY 0x100, TLB_MMIO 0x80.

  /** A run of ones from the top bit on. */
  predicate Prefix(mask: bv32) {
    !mask & (!mask + 1) == 0
  }

  predicate PowerOfTwo(size: bv32) {
    size != 0 && size & (size - 1) == 0
  }

  function SizeMask(size: bv32): bv32 {
    !(size - 1)
  }

  function Masked(a: bv32, mask: bv32): bv32 {
    a & mask
  }

  /** Two addresses differ in the bits of a mask. */
  predicate Differ(a: bv32, b: bv32, mask: bv32) {
    Masked(a ^ b, mask) != 0
  }

  predicate Even(mask: bv32) {
    mask & 1 == 0
  }

  /** The bits of `coarse` are among those of `fine`. */
  predicate Coarser(coarse: bv32, fine: bv32) {
    coarse & fine == coarse
  }

  lemma SizeMaskPrefix(size: bv32)
    requires PowerOfTwo(size)
    ensures Prefix(SizeMask(size))
  {
  }

  lemma PrefixAnd(a: bv32, b: bv32)
    requires Prefix(a) && Prefix(b)
    ensures Prefix(a & b) && Coarser(a & b, a) && Coarser(a & b, b)
  {
  }

  lemma PrefixShift(m: bv32)
    requires Prefix(m)
    ensures Prefix(m << 1) && Coarser(m << 1, m) && (m != 0 ==> m << 1 < m)
  {
  }

  lemma CoarserTrans(a: bv32, b: bv32, c: bv32)
    requires Coarser(a, b) && Coarser(b, c)
    ensures Coarser(a, c)
  {
  }

  /** What agrees on a mask agrees on a coarser one. */
  lemma AgreeCoarser(a: bv32, b: bv32, coarse: bv32, fine: bv32)
    requires Coarser(coarse, fine) && Masked(a, fine) == Masked(b, fine)
    ensures Masked(a, coarse) == Masked(b, coarse)
  {
  }

  function Page(a: bv32): bv32 {
    a & 0xFFFF_FC00
  }

  function Index(a: bv32): (i: nat)
    ensures i < 256
  {
    ((a >> 10) & 0xFF) as nat
  }

  /** A comparator of an entry: a page with flags in the bits below, or -1. */
  datatype Tag = NoTag | Tag(page: bv32, mmio: bool, notdirty: bool)

  /** The word that holds it. */
  function Word(t: Tag): bv32 {
    match t
    case NoTag => 0xFFFF_FFFF
    case Tag(page, mmio, notdirty) => Flagged(page, mmio, notdirty)
  }

  function Flagged(page: bv32, mmio: bool, notdirty: bool): bv32 {
    page | (if mmio then 0x80 else 0) | if notdirty then 0x100 else 0
  }

  /** The comparison of tlb_flush_entry: the page and TLB_INVALID_MASK. */
  predicate WordIs(word: bv32, page: bv32) {
    page == word & 0xFFFF_FE00
  }

  /** The flags do not disturb the comparison, and -1 is no page. */
  lemma WordCompare(t: Tag, page: bv32)
    requires Page(page) == page && (t.Tag? ==> Page(t.page) == t.page)
    ensures WordIs(Word(t), page) <==> t.Tag? && t.page == page
  {
    hide Page, Flagged, WordIs;
    match t {
      case NoTag => NoPage(page);
      case Tag(p, mmio, notdirty) => FlaggedCompare(p, mmio, notdirty, page);
    }
  }

  lemma NoPage(page: bv32)
    requires Page(page) == page
    ensures !WordIs(0xFFFF_FFFF, page)
  {
  }

  lemma FlaggedCompare(p: bv32, mmio: bool, notdirty: bool, page: bv32)
    requires Page(p) == p && Page(page) == page
    ensures WordIs(Flagged(p, mmio, notdirty), page) <==> p == page
  {
    FlaggedMasked(p, mmio, notdirty);
    hide Page, Flagged;
  }

  lemma FlaggedMasked(p: bv32, mmio: bool, notdirty: bool)
    requires Page(p) == p
    ensures Flagged(p, mmio, notdirty) & 0xFFFF_FE00 == p
  {
  }

  datatype Entry = Entry(read: Tag, write: Tag, code: Tag, addend: int)

  datatype Io = Io(addr: int, attrs: nat)

  /** What memset to -1 leaves. */
  const Dead := Entry(NoTag, NoTag, NoTag, -1)

  /** A call of tlb_set_page_with_attrs, with what the memory core answers about the section:
      its kind, whether the page is clean or watched, the host address and the iotlb value. */
  datatype Install = Install(
    mode: nat, vaddr: bv32, size: bv32, read: bool, write: bool, exec: bool,
    ram: bool, romd: bool, readonly: bool, clean: bool, watched: bool, host: int, iotlb: int, attrs: nat)

  /** The entry that an installation writes. Host and device addresses are relative to the virtual page. */
  function EntryOf(r: Install): Entry {
    var io := !r.ram && !r.romd;
    var rom := (r.ram && r.readonly) || r.romd;
    Entry(if r.read then Tag(r.vaddr, io || r.watched, false) else NoTag,
          if r.write then Tag(r.vaddr, io || r.watched || rom, !rom && r.ram && r.clean) else NoTag,
          if r.exec then Tag(r.vaddr, io, false) else NoTag,
          (if io then 0 else r.host) - (r.vaddr as int))
  }

  function IoOf(r: Install): Io {
    Io(r.iotlb - (r.vaddr as int), r.attrs)
  }

  /** A comparator word: -1 exactly if the access is not allowed; otherwise the page, with TLB_MMIO and TLB_NOTDIRTY
      exactly as said and no other bit. */
  predicate Compares(word: bv32, vaddr: bv32, allowed: bool, mmio: bool, notdirty: bool) {
    && (word == 0xFFFF_FFFF <==> !allowed)
    && (allowed ==>
          && word & 0xFFFF_FC00 == vaddr && word & 0x27F == 0
          && (word & 0x80 != 0 <==> mmio) && (word & 0x100 != 0 <==> notdirty))
  }

  /** What an entry and its iotlb value make of an installation. Accesses go through the I/O callbacks on devices and
      on watched pages, writes also on ROM; code is fetched directly except from devices. Writes to clean RAM are
      noticed. Direct accesses end up at the host address, the others at the iotlb value with its attributes. */
  predicate Grants(e: Entry, io: Io, r: Install) {
    && Compares(Word(e.read), r.vaddr, r.read, r.watched || !(r.ram || r.romd), false)
    && Compares(Word(e.write), r.vaddr, r.write, r.watched || !r.ram || r.readonly || r.romd,
                r.ram && r.clean && !r.readonly && !r.romd)
    && Compares(Word(e.code), r.vaddr, r.exec, !(r.ram || r.romd), false)
    && (r.ram || r.romd ==> e.addend + r.vaddr as int == r.host)
    && (!r.ram && !r.romd ==> e.addend + r.vaddr as int == 0)
    && io.addr + r.vaddr as int == r.iotlb && io.attrs == r.attrs
  }

  lemma FlaggedCompares(vaddr: bv32, mmio: bool, notdirty: bool)
    requires Page(vaddr) == vaddr
    ensures Compares(Flagged(vaddr, mmio, notdirty), vaddr, true, mmio, notdirty)
  {
  }

  lemma TagCompares(t: Tag, vaddr: bv32, allowed: bool, mmio: bool, notdirty: bool)
    requires Page(vaddr) == vaddr && t == if allowed then Tag(vaddr, mmio, notdirty) else NoTag
    ensures Compares(Word(t), vaddr, allowed, mmio, notdirty)
  {
    hide Page, Flagged;
    if allowed {
      FlaggedCompares(vaddr, mmio, notdirty);
      hide Compares;
    }
  }

  /** An installed entry grants what the installation asks for. */
  lemma InstalledGrants(r: Install)
    requires InstallOk(r)
    ensures Grants(EntryOf(r), IoOf(r), r)
  {
    hide Page, PowerOfTwo, Word, Compares;
    var e := EntryOf(r);
    TagCompares(e.read, r.vaddr, r.read, r.watched || !(r.ram || r.romd), false);
    TagCompares(e.write, r.vaddr, r.write, r.watched || !r.ram || r.readonly || r.romd,
                r.ram && r.clean && !r.readonly && !r.romd);
    TagCompares(e.code, r.vaddr, r.exec, !(r.ram || r.romd), false);
  }

  /** The comparison of an access with a comparator, as generated code makes it, lets through exactly the accesses to
      the page that are allowed. */
  lemma HitExactly(word: bv32, vaddr: bv32, allowed: bool, mmio: bool, notdirty: bool, a: bv32)
    requires Compares(word, vaddr, allowed, mmio, notdirty) && Page(vaddr) == vaddr
    ensures WordIs(word, Page(a)) <==> allowed && Page(a) == vaddr
  {
    PagePage(a);
    if allowed {
      NoInvalidBit(word);
      hide Page;
    } else {
      hide Page, WordIs;
      NoPage(Page(a));
    }
  }

  lemma NoInvalidBit(word: bv32)
    requires word & 0x27F == 0
    ensures word & 0xFFFF_FE00 == word & 0xFFFF_FC00
  {
  }

  predicate Live(e: Entry) {
    e.read.Tag? || e.write.Tag? || e.code.Tag?
  }

  predicate Tagged(e: Entry, page: bv32) {
    WordIs(Word(e.read), page) || WordIs(Word(e.write), page) || WordIs(Word(e.code), page)
  }

  /** tlb_flush_entry */
  function Flushed(e: Entry, page: bv32): Entry {
    if Tagged(e, page) then Dead else e
  }

  /** What callers of tlb_set_page pass: an aligned address, and a power of two of at least a page. */
  predicate InstallOk(r: Install) {
    Page(r.vaddr) == r.vaddr && PowerOfTwo(r.size) && r.size >= 0x400
  }

  /** Address `a` lies in the guest page that `r` installed a part of. */
  predicate Maps(r: Install, a: bv32) {
    Masked(a, SizeMask(r.size)) == Masked(r.vaddr, SizeMask(r.size))
  }

  /** The mask of a size has its bit and all bits above, and no bit below: addresses agree on it exactly if they are
      in the same aligned page of that size. */
  lemma SizeMaskBits(size: bv32)
    requires PowerOfTwo(size)
    ensures SizeMask(size) & size == size && SizeMask(size) & (size - 1) == 0
    ensures SizeMask(size) | (size - 1) == 0xFFFF_FFFF
  {
  }

  /** The flush region covers every large page installed. */
  ghost predicate RegionOk(addr: bv32, mask: bv32, installed: set<Install>) {
    if addr == 0xFFFF_FFFF then forall r :: r in installed ==> r.size == 0x400
    else
      && Prefix(mask) && Even(mask) && Masked(addr, mask) == addr
      && forall r :: r in installed && r.size != 0x400 ==> Covered(addr, mask, r)
  }

  predicate Covered(addr: bv32, mask: bv32, r: Install) {
    Coarser(mask, SizeMask(r.size)) && Masked(r.vaddr, mask) == addr
  }

  /** A slot that is in use holds the entry and the iotlb value of one installation. */
  ghost predicate SlotOk(e: Entry, io: Io, mode: nat, installed: set<Install>) {
    Live(e) ==> exists r :: r in installed && Holds(e, io, mode, r)
  }

  predicate Holds(e: Entry, io: Io, mode: nat, r: Install) {
    r.mode == mode && e == EntryOf(r) && io == IoOf(r)
  }

  ghost predicate MainOk(e: Entry, io: Io, mode: nat, i: nat, installed: set<Install>) {
    Live(e) ==> exists r :: r in installed && Holds(e, io, mode, r) && Index(r.vaddr) == i
  }

  /** Every slot in use holds what some installation of its mode grants. */
  lemma SlotGrants(e: Entry, io: Io, mode: nat, installed: set<Install>)
    requires SlotOk(e, io, mode, installed) && Live(e) && forall r :: r in installed ==> InstallOk(r)
    ensures exists r :: r in installed && r.mode == mode && Grants(e, io, r)
  {
    hide InstallOk, Grants, EntryOf, IoOf, Live;
    var r :| r in installed && Holds(e, io, mode, r);
    InstalledGrants(r);
  }

  /** Two addresses share a main slot exactly if they agree in the eight bits above the page offset. */
  lemma SameSlot(a: bv32, b: bv32)
    ensures Index(a) == Index(b) <==> (a ^ b) & 0x3_FC00 == 0
  {
    assert (a >> 10) & 0xFF == (b >> 10) & 0xFF <==> (a ^ b) & 0x3_FC00 == 0;
  }

  /** An address in a large page is in the region. */
  lemma RegionCatches(addr: bv32, mask: bv32, installed: set<Install>, r: Install, a: bv32)
    requires RegionOk(addr, mask, installed) && r in installed && r.size != 0x400 && Maps(r, a)
    ensures Masked(a, mask) == addr
  {
    CoveredCatches(addr, mask, r, a);
  }

  lemma CoveredCatches(addr: bv32, mask: bv32, r: Install, a: bv32)
    requires Covered(addr, mask, r) && Maps(r, a)
    ensures Masked(a, mask) == addr
  {
    hide Prefix, Coarser, SizeMask, Masked;
    AgreeCoarser(a, r.vaddr, mask, SizeMask(r.size));
  }

  lemma SmallPage(vaddr: bv32, a: bv32)
    requires Page(vaddr) == vaddr && Masked(a, SizeMask(0x400)) == Masked(vaddr, SizeMask(0x400))
    ensures Page(a) == vaddr
  {
  }

  /** Installed entries are tagged with their page and no other. */
  lemma InstalledTagged(r: Install, page: bv32)
    requires Page(r.vaddr) == r.vaddr && Page(page) == page
    ensures Tagged(EntryOf(r), page) <==> Live(EntryOf(r)) && page == r.vaddr
  {
    hide Page, Word, WordIs;
    var e := EntryOf(r);
    WordCompare(e.read, page);
    WordCompare(e.write, page);
    WordCompare(e.code, page);
  }

  /** Nothing that a flush of page `a` must remove is left in a slot. */
  lemma NotStale(e: Entry, r: Install, a: bv32)
    requires InstallOk(r) && r.size == 0x400 && Maps(r, a) && e == EntryOf(r) && Page(Page(a)) == Page(a)
    requires !Tagged(e, Page(a))
    ensures !Live(e)
  {
    hide Page, Tagged, PowerOfTwo, SizeMask, Masked;
    SmallPage(r.vaddr, a);
    InstalledTagged(r, Page(a));
  }

  /** The widened region covers what it covered before. */
  lemma StillCovered(addr: bv32, mask: bv32, mask': bv32, r: Install)
    requires Covered(addr, mask, r) && Coarser(mask', mask)
    ensures Covered(Masked(addr, mask'), mask', r)
  {
    hide SizeMask, Coarser, Masked;
    CoarserTrans(mask', mask, SizeMask(r.size));
    MaskedTwice(r.vaddr, mask, mask');
  }

  lemma MaskedTwice(a: bv32, mask: bv32, mask': bv32)
    requires Coarser(mask', mask)
    ensures Masked(Masked(a, mask), mask') == Masked(a, mask') && Masked(Masked(a, mask'), mask') == Masked(a, mask')
  {
  }

  lemma EvenMask(size: bv32, mask: bv32)
    requires PowerOfTwo(size) && size >= 0x400 && Coarser(mask, SizeMask(size))
    ensures Even(mask)
  {
  }

  lemma CoarserSelf(mask: bv32)
    ensures Coarser(mask, mask)
  {
  }

  /** A masked address is not the word for no region. */
  lemma MaskedNotAll(a: bv32, mask: bv32)
    requires Even(mask)
    ensures Masked(a, mask) != 0xFFFF_FFFF
  {
  }

  lemma AgreeMasked(a: bv32, b: bv32, mask: bv32)
    requires !Differ(a, b, mask)
    ensures Masked(a, mask) == Masked(b, mask)
  {
  }

  lemma DifferNonzero(a: bv32, b: bv32, mask: bv32)
    requires Differ(a, b, mask)
    ensures mask != 0
  {
  }

  /** The mask of a region that covers both the present region and the new page. */
  predicate Covering(m: bv32, addr: bv32, mask: bv32, vaddr: bv32, fine: bv32) {
    Prefix(m) && Coarser(m, mask) && Coarser(m, fine) && !Differ(addr, vaddr, m)
  }

  lemma CoveringBoth(m: bv32, addr: bv32, mask: bv32, vaddr: bv32, fine: bv32)
    requires Covering(m, addr, mask, vaddr, fine)
    ensures Coarser(m, fine & mask)
  {
    hide Prefix, Differ;
  }

  /** A mask on which the addresses agree is not one on which they differ, and so coarser than it by a bit. */
  lemma StillCoarser(m: bv32, mask: bv32, addr: bv32, was: bv32, vaddr: bv32, fine: bv32)
    requires Covering(m, addr, was, vaddr, fine) && Coarser(m, mask) && Prefix(mask) && Differ(addr, vaddr, mask)
    ensures Coarser(m, mask << 1)
  {
    hide Differ, Prefix, Coarser;
    CoarserByBit(m, mask);
  }

  lemma CoarserByBit(m: bv32, mask: bv32)
    requires Prefix(m) && Prefix(mask) && Coarser(m, mask) && m != mask
    ensures Coarser(m, mask << 1)
  {
  }

  /** The loop of tlb_add_large_page: the finest mask that covers both. */
  method Widen(addr: bv32, was: bv32, vaddr: bv32, fine: bv32) returns (mask: bv32)
    requires Prefix(was) && Prefix(fine)
    ensures Covering(mask, addr, was, vaddr, fine) && forall m :: Covering(m, addr, was, vaddr, fine) ==>
              Coarser(m, mask)
  {
    hide Covering, Prefix, Coarser, Masked, Differ;
    PrefixAnd(fine, was);
    mask := fine & was;
    forall m | Covering(m, addr, was, vaddr, fine) ensures Coarser(m, mask) {
      CoveringBoth(m, addr, was, vaddr, fine);
    }
    while Differ(addr, vaddr, mask)
      invariant Prefix(mask) && Coarser(mask, fine) && Coarser(mask, was)
      invariant forall m :: Covering(m, addr, was, vaddr, fine) ==> Coarser(m, mask)
      decreases mask
    {
      DifferNonzero(addr, vaddr, mask);
      forall m | Covering(m, addr, was, vaddr, fine) ensures Coarser(m, mask << 1) {
        StillCoarser(m, mask, addr, was, vaddr, fine);
      }
      PrefixShift(mask);
      CoarserTrans(mask << 1, mask, fine);
      CoarserTrans(mask << 1, mask, was);
      mask := mask << 1;
    }
    IsCovering(mask, addr, was, vaddr, fine);
  }

  lemma IsCovering(m: bv32, addr: bv32, mask: bv32, vaddr: bv32, fine: bv32)
    requires Prefix(m) && Coarser(m, mask) && Coarser(m, fine) && !Differ(addr, vaddr, m)
    ensures Covering(m, addr, mask, vaddr, fine)
  {
  }

  lemma CoveringMeans(m: bv32, addr: bv32, mask: bv32, vaddr: bv32, fine: bv32)
    requires Covering(m, addr, mask, vaddr, fine)
    ensures Prefix(m) && Coarser(m, mask) && Coarser(m, fine) && !Differ(addr, vaddr, m)
  {
  }

  class Env {
    const modes: nat
    const main: array2<Entry>
    const victim: array2<Entry>
    const iotlb: array2<Io>
    const iotlbVictim: array2<Io>
    var vtlbIndex: nat
    var flushAddr: bv32
    var flushMask: bv32
    /** The installations since the last full flush. */
    ghost var installed: set<Install>

    ghost predicate Shape() {
      && main.Length0 == modes && main.Length1 == 256 && iotlb.Length0 == modes && iotlb.Length1 == 256
      && victim.Length0 == modes && victim.Length1 == 8 && iotlbVictim.Length0 == modes && iotlbVictim.Length1 == 8
    }

    ghost predicate Slots()
      reads this, main, victim, iotlb, iotlbVictim
    {
      && Shape()
      && (forall m: nat, i: nat :: m < modes && i < 256 ==> MainOk(main[m, i], iotlb[m, i], m, i, installed))
      && (forall m: nat, k: nat :: m < modes && k < 8 ==> SlotOk(victim[m, k], iotlbVictim[m, k], m, installed))
    }

    ghost predicate Valid()
      reads this, main, victim, iotlb, iotlbVictim
    {
      Slots() && RegionOk(flushAddr, flushMask, installed) && forall r :: r in installed ==> InstallOk(r)
    }

    /** No slot is in use. */
    ghost predicate Empty()
      reads this, main, victim
      requires Shape()
    {
      && (forall m: nat, i: nat :: m < modes && i < 256 ==> !Live(main[m, i]))
      && (forall m: nat, k: nat :: m < modes && k < 8 ==> !Live(victim[m, k]))
    }

    /** No slot holds part of a page that contains `a`. */
    ghost predicate Forgot(a: bv32, installs: set<Install>)
      reads this, main, victim
      requires Shape()
    {
      forall r: Install :: r in installs && Maps(r, a) ==>
        && (forall m: nat, i: nat :: m < modes && i < 256 ==> !(Live(main[m, i]) && main[m, i] == EntryOf(r)))
        && (forall m: nat, k: nat :: m < modes && k < 8 ==> !(Live(victim[m, k]) && victim[m, k] == EntryOf(r)))
    }

    constructor (modes: nat)
      ensures Valid() && Empty() && this.modes == modes && installed == {}
      ensures fresh(main) && fresh(victim) && fresh(iotlb) && fresh(iotlbVictim)
    {
      this.modes := modes;
      main := new Entry[modes, 256]((i, j) => Dead);
      victim := new Entry[modes, 8]((i, j) => Dead);
      iotlb := new Io[modes, 256]((i, j) => Io(0, 0));
      iotlbVictim := new Io[modes, 8]((i, j) => Io(0, 0));
      vtlbIndex, flushAddr, flushMask, installed := 0, 0xFFFF_FFFF, 0, {};
    }

    /** tlb_flush */
    method Flush()
      requires Shape()
      modifies this, main, victim
      ensures Valid() && Empty() && installed == {} && flushAddr == 0xFFFF_FFFF && vtlbIndex == 0
    {
      forall m, i | 0 <= m < modes && 0 <= i < 256 {
        main[m, i] := Dead;
      }
      forall m, k | 0 <= m < modes && 0 <= k < 8 {
        victim[m, k] := Dead;
      }
      vtlbIndex, flushAddr, flushMask, installed := 0, 0xFFFF_FFFF, 0, {};
    }

    /** tlb_add_large_page, for the installation that calls it. */
    method AddLargePage(ghost r: Install, vaddr: bv32, size: bv32)
      requires InstallOk(r) && r.vaddr == vaddr && r.size == size && RegionOk(flushAddr, flushMask, installed)
      modifies this`flushAddr, this`flushMask
      ensures RegionOk(flushAddr, flushMask, installed + {r})
      ensures old(flushAddr) == 0xFFFF_FFFF ==> flushMask == SizeMask(size)
      ensures old(flushAddr) != 0xFFFF_FFFF ==>
                forall m :: Covering(m, old(flushAddr), old(flushMask), vaddr, SizeMask(size)) ==> Coarser(m, flushMask)
    {
      hide Covering, Prefix, Coarser, SizeMask, Masked, Even, Differ, InstallOk, RegionOk;
      InstallMask(r);
      if flushAddr == 0xFFFF_FFFF {
        FirstLarge(flushMask, installed, r);
        flushAddr := Masked(vaddr, SizeMask(size));
        flushMask := SizeMask(size);
        return;
      }
      ghost var fine, was := SizeMask(size), flushMask;
      RegionPrefix(flushAddr, flushMask, installed);
      var mask := Widen(flushAddr, flushMask, vaddr, SizeMask(size));
      CoveringMeans(mask, flushAddr, was, vaddr, fine);
      Widened(flushAddr, was, mask, installed, r);
      flushAddr := Masked(flushAddr, mask);
      flushMask := mask;
    }

    /** tlb_flush_page */
    method FlushPage(addr: bv32)
      requires Valid()
      modifies this, main, victim
      ensures Valid() && Forgot(addr, old(installed))
      ensures forall m: nat, i: nat :: m < modes && i < 256 ==> !Tagged(main[m, i], Page(addr))
      ensures forall m: nat, k: nat :: m < modes && k < 8 ==> !Tagged(victim[m, k], Page(addr))
      ensures (exists r :: r in old(installed) && r.size != 0x400 && Maps(r, addr)) ==> Empty()
      ensures old(Masked(addr, flushMask) == flushAddr) ==> Empty() && installed == {}
      ensures !old(Masked(addr, flushMask) == flushAddr) ==>
                && installed == old(installed) && flushAddr == old(flushAddr) && flushMask == old(flushMask)
                     && vtlbIndex == old(vtlbIndex)
                && (forall m: nat, i: nat :: m < modes && i < 256 ==>
                      main[m, i] == Flushed(old(main[m, i]), Page(addr)))
                && (forall m: nat, k: nat :: m < modes && k < 8 ==>
                      victim[m, k] == Flushed(old(victim[m, k]), Page(addr)))
    {
      hide Page, Masked, Tagged, RegionOk, InstallOk, Maps, MainOk, SlotOk, Live, Index;
      PagePage(addr);
      if Masked(addr, flushMask) == flushAddr {
        Flush();
        EmptyNotTagged(Page(addr));
        return;
      }
      forall r | r in installed && r.size != 0x400 ensures !Maps(r, addr) {
        if Maps(r, addr) {
          RegionCatches(flushAddr, flushMask, installed, r, addr);
        }
      }
      forall m: nat, i: nat | m < modes && i < 256 && i != Index(Page(addr)) ensures !Tagged(main[m, i], Page(addr)) {
        TaggedElsewhere(main[m, i], iotlb[m, i], m, i, installed, Page(addr));
      }
      FlushMain(Page(addr));
      FlushVictims(Page(addr));
      AfterFlush(addr);
    }

    method FlushMain(page: bv32)
      requires Shape()
      modifies main
      ensures forall m: nat, i: nat :: m < modes && i < 256 ==>
                main[m, i] == if i == Index(page) then Flushed(old(main[m, i]), page) else old(main[m, i])
    {
      hide Tagged, Index;
      var mode: nat := 0;
      while mode < modes
        invariant mode <= modes
        invariant forall m: nat, i: nat :: m < modes && i < 256 ==>
                    main[m, i] == if m < mode && i == Index(page) then Flushed(old(main[m, i]), page)
                      else old(main[m, i])
      {
        main[mode, Index(page)] := Flushed(main[mode, Index(page)], page);
        mode := mode + 1;
      }
    }

    method FlushVictims(page: bv32)
      requires Shape()
      modifies victim
      ensures forall m: nat, k: nat :: m < modes && k < 8 ==> victim[m, k] == Flushed(old(victim[m, k]), page)
    {
      hide Tagged;
      var mode: nat := 0;
      while mode < modes
        invariant mode <= modes
        invariant forall m: nat, k: nat :: m < modes && k < 8 ==>
                    victim[m, k] == if m < mode then Flushed(old(victim[m, k]), page) else old(victim[m, k])
      {
        var n: nat := 0;
        while n < 8
          invariant n <= 8
          invariant forall m: nat, k: nat :: m < modes && k < 8 ==>
                      victim[m, k] == if m < mode || (m == mode && k < n) then Flushed(old(victim[m, k]), page)
                        else old(victim[m, k])
        {
          victim[mode, n] := Flushed(victim[mode, n], page);
          n := n + 1;
        }
        mode := mode + 1;
      }
    }

    /** Larger pages extend the region. */
    method NoteSize(r: Install)
      requires InstallOk(r) && RegionOk(flushAddr, flushMask, installed)
      modifies this`flushAddr, this`flushMask
      ensures RegionOk(flushAddr, flushMask, installed + {r})
    {
      hide RegionOk, InstallOk;
      if r.size != 0x400 {
        AddLargePage(r, r.vaddr, r.size);
      } else {
        RegionSmall(flushAddr, flushMask, installed, r);
      }
    }

    /** tlb_set_page_with_attrs */
    method SetPage(r: Install)
      requires Valid() && InstallOk(r) && r.mode < modes
      modifies this, main, victim, iotlb, iotlbVictim
      ensures Valid() && installed == old(installed) + {r}
      ensures Refilled(r, old(vtlbIndex) % 8) && vtlbIndex == (old(vtlbIndex) + 1) % 0x1_0000_0000
      ensures Grants(main[r.mode, Index(r.vaddr)], iotlb[r.mode, Index(r.vaddr)], r)
    {
      hide Masked, Tagged, RegionOk, InstallOk, MainOk, SlotOk, Live, Index, EntryOf, IoOf, Grants;
      InstalledGrants(r);
      var vidx := vtlbIndex % 8;
      vtlbIndex := (vtlbIndex + 1) % 0x1_0000_0000;
      NoteSize(r);
      var index := Index(r.vaddr);
      victim[r.mode, vidx] := main[r.mode, index];
      iotlbVictim[r.mode, vidx] := iotlb[r.mode, index];
      iotlb[r.mode, index] := IoOf(r);
      main[r.mode, index] := EntryOf(r);
      forall m: nat, i: nat | m < modes && i < 256 ensures MainOk(main[m, i], iotlb[m, i], m, i, installed + {r}) {
        MainAfter(old(main[m, i]), old(iotlb[m, i]), m, i, installed, r);
      }
      forall m: nat, k: nat | m < modes && k < 8 ensures SlotOk(victim[m, k], iotlbVictim[m, k], m, installed + {r}) {
        SlotAfter(old(victim[m, k]), old(iotlbVictim[m, k]), m, installed, r);
        MainIsSlot(old(main[m, index]), old(iotlb[m, index]), m, index, installed);
        SlotAfter(old(main[m, index]), old(iotlb[m, index]), m, installed, r);
      }
      installed := installed + {r};
    }

    /** The new entry is in its main slot, what was there went to the victim slot; nothing else changed. */
    twostate predicate Refilled(r: Install, vidx: nat)
      requires Shape() && r.mode < modes && vidx < 8
      reads this, main, victim, iotlb, iotlbVictim
    {
      && main[r.mode, Index(r.vaddr)] == EntryOf(r) && iotlb[r.mode, Index(r.vaddr)] == IoOf(r)
      && victim[r.mode, vidx] == old(main[r.mode, Index(r.vaddr)])
           && iotlbVictim[r.mode, vidx] == old(iotlb[r.mode, Index(r.vaddr)])
      && (forall m: nat, k: nat :: m < modes && k < 8 && !(m == r.mode && k == vidx) ==>
            victim[m, k] == old(victim[m, k]) && iotlbVictim[m, k] == old(iotlbVictim[m, k]))
      && (forall m: nat, i: nat :: m < modes && i < 256 && !(m == r.mode && i == Index(r.vaddr)) ==>
            main[m, i] == old(main[m, i]) && iotlb[m, i] == old(iotlb[m, i]))
    }

    /** victim_tlb_hit, for the comparator that `kind` picks and an index that belongs to the page. */
    method VictimHit(mode: nat, index: nat, kind: Entry -> Tag, page: bv32) returns (hit: bool)
      requires Valid() && mode < modes && Page(page) == page && index == Index(page)
      requires forall e :: kind(e) in {e.read, e.write, e.code}
      modifies main, victim, iotlb, iotlbVictim
      ensures Valid()
      ensures hit <==> exists k: nat :: k < 8 && Word(kind(old(victim[mode, k]))) == page
      ensures hit ==> Word(kind(main[mode, index])) == page
      ensures hit ==> exists k: nat :: k < 8 && Swapped(mode, index, k)
      ensures !hit ==> unchanged(main) && unchanged(victim) && unchanged(iotlb) && unchanged(iotlbVictim)
    {
      hide Page, Word, RegionOk, InstallOk, MainOk, SlotOk, Index;
      var vidx: nat := 0;
      while vidx < 8
        invariant vidx <= 8
        invariant forall k: nat :: k < vidx ==> Word(kind(victim[mode, k])) != page
      {
        var vtlb := victim[mode, vidx];
        if Word(kind(vtlb)) == page {
          VictimIsMain(vtlb, iotlbVictim[mode, vidx], mode, index, kind(vtlb), page, installed);
          MainIsSlot(main[mode, index], iotlb[mode, index], mode, index, installed);
          var tlb, io := main[mode, index], iotlb[mode, index];
          main[mode, index], victim[mode, vidx] := vtlb, tlb;
          iotlb[mode, index], iotlbVictim[mode, vidx] := iotlbVictim[mode, vidx], io;
          assert Swapped(mode, index, vidx);
          return true;
        }
        vidx := vidx + 1;
      }
      return false;
    }

    /** A main slot and a victim slot changed places, with their iotlb values; nothing else changed. */
    twostate predicate Swapped(mode: nat, index: nat, k: nat)
      requires Shape() && mode < modes && index < 256 && k < 8
      reads this, main, victim, iotlb, iotlbVictim
    {
      && main[mode, index] == old(victim[mode, k]) && victim[mode, k] == old(main[mode, index])
      && iotlb[mode, index] == old(iotlbVictim[mode, k]) && iotlbVictim[mode, k] == old(iotlb[mode, index])
      && (forall m: nat, i: nat :: m < modes && i < 256 && !(m == mode && i == index) ==>
            main[m, i] == old(main[m, i]) && iotlb[m, i] == old(iotlb[m, i]))
      && (forall m: nat, j: nat :: m < modes && j < 8 && !(m == mode && j == k) ==>
            victim[m, j] == old(victim[m, j]) && iotlbVictim[m, j] == old(iotlbVictim[m, j]))
    }

    /** In every state, main and victim entries in use grant what an installation since the last full flush asked
        for, and nothing else. */
    lemma EntriesGrant(m: nat, i: nat, k: nat)
      requires Valid() && m < modes && i < 256 && k < 8
      ensures Live(main[m, i]) ==>
                exists r :: r in installed && r.mode == m && Index(r.vaddr) == i && Grants(main[m, i], iotlb[m, i], r)
      ensures Live(victim[m, k]) ==>
                exists r :: r in installed && r.mode == m && Grants(victim[m, k], iotlbVictim[m, k], r)
    {
      hide RegionOk, InstallOk, Grants, EntryOf, IoOf, Live, Index, SlotOk;
      if Live(main[m, i]) {
        var r :| r in installed && Holds(main[m, i], iotlb[m, i], m, r) && Index(r.vaddr) == i;
        InstalledGrants(r);
      }
      if Live(victim[m, k]) {
        SlotGrants(victim[m, k], iotlbVictim[m, k], m, installed);
      }
    }

    lemma EmptyNotTagged(page: bv32)
      requires Shape() && Empty() && Page(page) == page
      ensures forall m: nat, i: nat :: m < modes && i < 256 ==> !Tagged(main[m, i], page)
      ensures forall m: nat, k: nat :: m < modes && k < 8 ==> !Tagged(victim[m, k], page)
    {
      forall e: Entry | !Live(e) ensures !Tagged(e, page) {
        TaggedLive(e, page);
      }
    }

    /** A flush of single slots leaves slots in order. */
    twostate lemma AfterFlush(addr: bv32)
      requires old(Valid()) && Page(Page(addr)) == Page(addr) && installed == old(installed)
      requires flushAddr == old(flushAddr) && flushMask == old(flushMask)
      requires unchanged(iotlb) && unchanged(iotlbVictim)
      requires forall r :: r in installed && r.size != 0x400 ==> !Maps(r, addr)
      requires forall m: nat, i: nat :: m < modes && i < 256 ==> main[m, i] == Flushed(old(main[m, i]), Page(addr))
      requires forall m: nat, k: nat :: m < modes && k < 8 ==> victim[m, k] == Flushed(old(victim[m, k]), Page(addr))
      ensures Valid() && Forgot(addr, installed)
      ensures forall m: nat, i: nat :: m < modes && i < 256 ==> !Tagged(main[m, i], Page(addr))
      ensures forall m: nat, k: nat :: m < modes && k < 8 ==> !Tagged(victim[m, k], Page(addr))
    {
      hide Page, Masked, Tagged, RegionOk, InstallOk, Flushed, Maps, MainOk, SlotOk, Live, Index, EntryOf;
      forall m: nat, i: nat | m < modes && i < 256
        ensures !Tagged(main[m, i], Page(addr)) && MainOk(main[m, i], iotlb[m, i], m, i, installed)
        ensures forall r :: r in installed && Maps(r, addr) ==> !(Live(main[m, i]) && main[m, i] == EntryOf(r))
      {
        FlushedSlot(old(main[m, i]), addr, installed);
        FlushedMain(old(main[m, i]), iotlb[m, i], m, i, Page(addr), installed);
      }
      forall m: nat, k: nat | m < modes && k < 8
        ensures !Tagged(victim[m, k], Page(addr)) && SlotOk(victim[m, k], iotlbVictim[m, k], m, installed)
        ensures forall r :: r in installed && Maps(r, addr) ==> !(Live(victim[m, k]) && victim[m, k] == EntryOf(r))
      {
        FlushedSlot(old(victim[m, k]), addr, installed);
        FlushedVictim(old(victim[m, k]), iotlbVictim[m, k], m, Page(addr), installed);
      }
    }
  }

  lemma PagePage(a: bv32)
    ensures Page(Page(a)) == Page(a)
  {
  }

  lemma TaggedLive(e: Entry, page: bv32)
    requires Page(page) == page
    ensures Tagged(e, page) ==> Live(e)
  {
    hide Page, Word, WordIs;
    if !Live(e) {
      WordCompare(NoTag, page);
    }
  }

  lemma TaggedElsewhere(e: Entry, io: Io, mode: nat, i: nat, installed: set<Install>, page: bv32)
    requires MainOk(e, io, mode, i, installed) && (forall r :: r in installed ==> InstallOk(r)) && Page(page) == page
    requires i != Index(page)
    ensures !Tagged(e, page)
  {
    hide Page, Tagged, Index, PowerOfTwo;
    TaggedLive(e, page);
    if Live(e) {
      var r :| r in installed && Holds(e, io, mode, r) && Index(r.vaddr) == i;
      InstalledTagged(r, page);
    }
  }

  lemma FlushedSlot(e: Entry, a: bv32, installed: set<Install>)
    requires Page(Page(a)) == Page(a) && (forall r :: r in installed ==> InstallOk(r))
    requires forall r :: r in installed && r.size != 0x400 ==> !Maps(r, a)
    ensures !Tagged(Flushed(e, Page(a)), Page(a))
    ensures forall r :: r in installed && Maps(r, a) ==>
              !(Live(Flushed(e, Page(a))) && Flushed(e, Page(a)) == EntryOf(r))
  {
    hide Page, Tagged, InstallOk, Maps, EntryOf;
    var e' := Flushed(e, Page(a));
    TaggedLive(Dead, Page(a));
    forall r | r in installed && Maps(r, a) && e' == EntryOf(r) ensures !Live(e') {
      NotStale(e', r, a);
    }
  }

  lemma RegionSmall(addr: bv32, mask: bv32, installed: set<Install>, r: Install)
    requires RegionOk(addr, mask, installed) && r.size == 0x400
    ensures RegionOk(addr, mask, installed + {r})
  {
    hide Prefix, Even, Masked, Covered;
  }

  lemma MainAfter(e: Entry, io: Io, mode: nat, i: nat, installed: set<Install>, r: Install)
    requires MainOk(e, io, mode, i, installed)
    ensures MainOk(e, io, mode, i, installed + {r})
    ensures (mode == r.mode && i == Index(r.vaddr) ==> MainOk(EntryOf(r), IoOf(r), mode, i, installed + {r}))
  {
    hide Index, EntryOf, IoOf, Live;
    if Live(e) {
      var q :| q in installed && Holds(e, io, mode, q) && Index(q.vaddr) == i;
      assert q in installed + {r};
    }
    assert r in installed + {r} && (mode == r.mode ==> Holds(EntryOf(r), IoOf(r), mode, r));
  }

  lemma SlotAfter(e: Entry, io: Io, mode: nat, installed: set<Install>, r: Install)
    requires SlotOk(e, io, mode, installed)
    ensures SlotOk(e, io, mode, installed + {r})
  {
    hide EntryOf, IoOf, Live;
    if Live(e) {
      var q :| q in installed && Holds(e, io, mode, q);
      assert q in installed + {r};
    }
  }

  lemma MainIsSlot(e: Entry, io: Io, mode: nat, i: nat, installed: set<Install>)
    requires MainOk(e, io, mode, i, installed)
    ensures SlotOk(e, io, mode, installed)
  {
    hide EntryOf, IoOf, Live, Index;
  }

  /** A victim whose comparator is the page belongs at the index of the page. */
  lemma VictimIsMain(e: Entry, io: Io, mode: nat, i: nat, tag: Tag, page: bv32, installed: set<Install>)
    requires SlotOk(e, io, mode, installed) && (forall r :: r in installed ==> InstallOk(r))
    requires tag in {e.read, e.write, e.code} && Word(tag) == page && Page(page) == page && i == Index(page)
    ensures MainOk(e, io, mode, i, installed)
  {
    hide Page, Index, Word, PowerOfTwo;
    if Live(e) {
      var r :| r in installed && Holds(e, io, mode, r);
      PageWord(tag, page);
      assert r in installed && Holds(e, io, mode, r) && Index(r.vaddr) == i;
    }
  }

  lemma PageWord(t: Tag, page: bv32)
    requires Word(t) == page && Page(page) == page && (t.Tag? ==> Page(t.page) == t.page)
    ensures t.Tag? && t.page == page
  {
    hide Page, Word, WordIs;
    PageWordIs(page);
    WordCompare(t, page);
  }

  lemma PageWordIs(page: bv32)
    requires Page(page) == page
    ensures WordIs(page, page)
  {
  }

  lemma FlushedMain(e: Entry, io: Io, mode: nat, i: nat, page: bv32, installed: set<Install>)
    requires MainOk(e, io, mode, i, installed)
    ensures MainOk(Flushed(e, page), io, mode, i, installed)
  {
    hide Tagged, Index, EntryOf;
  }

  lemma FlushedVictim(e: Entry, io: Io, mode: nat, page: bv32, installed: set<Install>)
    requires SlotOk(e, io, mode, installed)
    ensures SlotOk(Flushed(e, page), io, mode, installed)
  {
    hide Tagged, Index, EntryOf;
  }

  lemma InstallMask(r: Install)
    requires InstallOk(r)
    ensures Prefix(SizeMask(r.size)) && Even(SizeMask(r.size))
  {
    hide Page, PowerOfTwo, SizeMask, Prefix, Even;
    SizeMaskPrefix(r.size);
    CoarserSelf(SizeMask(r.size));
    EvenMask(r.size, SizeMask(r.size));
  }

  lemma RegionPrefix(addr: bv32, mask: bv32, installed: set<Install>)
    requires RegionOk(addr, mask, installed) && addr != 0xFFFF_FFFF
    ensures Prefix(mask)
  {
  }

  lemma FirstLarge(mask0: bv32, installed: set<Install>, r: Install)
    requires InstallOk(r) && RegionOk(0xFFFF_FFFF, mask0, installed)
    ensures var mask := SizeMask(r.size); RegionOk(Masked(r.vaddr, mask), mask, installed + {r})
  {
    hide Page, PowerOfTwo, SizeMask, Prefix, Masked, Even, Coarser;
    var mask := SizeMask(r.size);
    InstallMask(r);
    MaskedNotAll(r.vaddr, mask);
    CoarserSelf(mask);
    MaskedTwice(r.vaddr, mask, mask);
  }

  lemma Widened(addr: bv32, mask: bv32, mask': bv32, installed: set<Install>, r: Install)
    requires InstallOk(r) && RegionOk(addr, mask, installed) && addr != 0xFFFF_FFFF
    requires Prefix(mask') && Coarser(mask', SizeMask(r.size)) && Coarser(mask', mask) && !Differ(addr, r.vaddr, mask')
    ensures RegionOk(Masked(addr, mask'), mask', installed + {r})
  {
    hide Page, PowerOfTwo, SizeMask, Prefix, Masked, Even, Coarser, Covered, Differ;
    EvenMask(r.size, mask');
    MaskedNotAll(addr, mask');
    MaskedTwice(addr, mask, mask');
    AgreeMasked(addr, r.vaddr, mask');
    CoveredIs(Masked(addr, mask'), mask', r);
    forall q | q in installed && q.size != 0x400 ensures Covered(Masked(addr, mask'), mask', q) {
      StillCovered(addr, mask, mask', q);
    }
  }

  lemma CoveredIs(addr: bv32, mask: bv32, r: Install)
    requires Coarser(mask, SizeMask(r.size)) && Masked(r.vaddr, mask) == addr
    ensures Covered(addr, mask, r)
  {
  }
}
