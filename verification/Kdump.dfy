/** A whole kdump-compressed dump and its reader (qemu/dump.c). */
module Kdump {
  import opened Common
  import opened Arithmetic
  import opened KdumpFile
  import opened KdumpPages
  import opened KdumpBitmap
  import opened KdumpData

  /** A value stored in a uint32_t. */
  function W32(x: nat): nat { x % 0x1_0000_0000 }

  /** The offset of a block, multiplied in a uint32_t. */
  function BlockOffset(block: nat, pageSize: nat): nat { W32(W32(block) * pageSize) }

  /** The offsets of create_header32 and create_header64, where `khSize` is the size of the sub header. */
  datatype Layout = Layout(subHdrSize: nat, bitmapBlocks: nat, offsetNote: nat, offsetDumpBitmap: nat, offsetPage: nat)

  function LayoutOf(pageSize: nat, khSize: nat, noteSize: nat, len: nat): Layout
    requires 0 < pageSize
  {
    var subHdrSize := Quotient(W32(W32(khSize + noteSize) + pageSize - 1), pageSize);
    var bitmapBlocks := W32(DivRoundUp(len, pageSize) * 2);
    Layout(subHdrSize, bitmapBlocks, pageSize + khSize,
           BlockOffset(1 + subHdrSize, pageSize), BlockOffset(1 + subHdrSize + bitmapBlocks, pageSize))
  }

  /** The number of bytes up to the page descriptors, without 32-bit truncation. */
  function HeadSize(pageSize: nat, khSize: nat, noteSize: nat, len: nat): nat
    requires 0 < pageSize
  {
    BitmapStart(pageSize, khSize, noteSize) + 2 * len
  }

  lemma RoundUpRange(n: nat, d: nat)
    requires 0 < d
    ensures n <= DivRoundUp(n, d) * d < n + d
  {
    DivRange(n + d - 1, d);
  }

  lemma RoundUpMultiple(t: nat, d: nat)
    requires 0 < d
    ensures DivRoundUp(t * d, d) == t
  {
    DivAddMultiple(d - 1, d, t);
    assert d * t + (d - 1) == t * d + d - 1;
    DivUnique(d - 1, d, 0, d - 1);
  }

  lemma NoWrap(x: nat)
    requires x < 0x1_0000_0000
    ensures W32(x) == x
  {
  }

  lemma Wraps(x: nat)
    ensures W32(x) < 0x1_0000_0000
  {
  }

  /** Where the first bitmap should start, without 32-bit truncation. */
  function BitmapStart(pageSize: nat, khSize: nat, noteSize: nat): nat
    requires 0 < pageSize
  {
    (1 + DivRoundUp(khSize + noteSize, pageSize)) * pageSize
  }

  /** The headers and notes end before the first bitmap if and only if it starts below 4 GiB. */
  lemma NotesFit(pageSize: nat, khSize: nat, noteSize: nat, len: nat)
    requires 0 < pageSize
    ensures var l := LayoutOf(pageSize, khSize, noteSize, len); var start := BitmapStart(pageSize, khSize, noteSize);
            && (l.offsetNote + noteSize <= l.offsetDumpBitmap <==> start < 0x1_0000_0000)
            && (start < 0x1_0000_0000 ==>
                  l.subHdrSize == DivRoundUp(khSize + noteSize, pageSize) && l.offsetDumpBitmap == start)
  {
    hide W32;
    var x, sub := khSize + noteSize, DivRoundUp(khSize + noteSize, pageSize);
    LayoutStart(pageSize, khSize, noteSize, len);
    RoundUpRange(x, pageSize);
    assert (1 + sub) * pageSize == pageSize + sub * pageSize;
    SmallFactor(1 + sub, pageSize);
    if pageSize + x < 0x1_0000_0000 {
      NoWrap(x);
      NoWrap(x + pageSize - 1);
      SubBound(x, pageSize);
      NoWrap(1 + sub);
      WrapsOnce((1 + sub) * pageSize);
    } else {
      var l := LayoutOf(pageSize, khSize, noteSize, len);
      Wraps(W32(1 + l.subHdrSize) * pageSize);
    }
  }

  lemma LayoutStart(pageSize: nat, khSize: nat, noteSize: nat, len: nat)
    requires 0 < pageSize
    ensures var l := LayoutOf(pageSize, khSize, noteSize, len);
            && l.subHdrSize == Quotient(W32(W32(khSize + noteSize) + pageSize - 1), pageSize)
            && l.offsetNote == pageSize + khSize && l.offsetDumpBitmap == BlockOffset(1 + l.subHdrSize, pageSize)
  {
    hide W32, Quotient, BlockOffset;
  }

  lemma SubBound(x: nat, d: nat)
    requires 0 < d
    ensures DivRoundUp(x, d) <= x
  {
    DivRange(x + d - 1, d);
    if x < (x + d - 1) / d {
      MulMonotone(x + 1, (x + d - 1) / d, d);
      SmallFactor(x, d);
    }
  }

  lemma WrapsOnce(x: nat)
    requires x < 0x2_0000_0000
    ensures W32(x) == if x < 0x1_0000_0000 then x else x - 0x1_0000_0000
  {
  }

  lemma SmallFactor(x: nat, d: nat)
    requires 0 < d
    ensures x <= x * d
  {
    MulMonotone(1, d, x);
  }

  /** The page descriptors start right after the two bitmaps when everything before them fits in
      32 bits; when it does not, the truncated offset points back before their end. */
  lemma PagesAfterBitmaps(pageSize: nat, khSize: nat, noteSize: nat, len: nat, t: nat)
    requires 0 < pageSize && BitmapStart(pageSize, khSize, noteSize) < 0x1_0000_0000 && len == t * pageSize
    ensures var l := LayoutOf(pageSize, khSize, noteSize, len); var head := HeadSize(pageSize, khSize, noteSize, len);
            && l.offsetDumpBitmap + 2 * len == head
            && (l.offsetPage >= l.offsetDumpBitmap + 2 * len <==> head < 0x1_0000_0000)
            && (head < 0x1_0000_0000 ==> l.offsetPage == head)
  {
    hide W32, LayoutOf, DivRoundUp;
    var l := LayoutOf(pageSize, khSize, noteSize, len);
    var head := HeadSize(pageSize, khSize, noteSize, len);
    NotesFit(pageSize, khSize, noteSize, len);
    RoundUpMultiple(t, pageSize);
    LayoutPage(pageSize, khSize, noteSize, len, t);
    var blocks := 1 + l.subHdrSize + 2 * t;
    BlocksProduct(l.subHdrSize, t, pageSize);
    assert blocks * pageSize == head;
    SmallFactor(blocks, pageSize);
    if head < 0x1_0000_0000 {
      NoWrap(2 * t);
      NoWrap(blocks);
      NoWrap(head);
    } else {
      Wraps(W32(1 + l.subHdrSize + l.bitmapBlocks) * pageSize);
    }
  }

  lemma LayoutPage(pageSize: nat, khSize: nat, noteSize: nat, len: nat, t: nat)
    requires 0 < pageSize && DivRoundUp(len, pageSize) == t
    ensures var l := LayoutOf(pageSize, khSize, noteSize, len);
            && l.bitmapBlocks == W32(2 * t)
            && l.offsetPage == BlockOffset(1 + l.subHdrSize + l.bitmapBlocks, pageSize)
  {
    hide W32, Quotient, BlockOffset;
    assert t * 2 == 2 * t;
  }

  lemma BlocksProduct(sub: nat, t: nat, d: nat)
    ensures (1 + sub + 2 * t) * d == (1 + sub) * d + 2 * (t * d)
  {
    MulSum(d, 1 + sub, 2 * t);
  }

  /** What a reader of the dump knows from its headers. */
  datatype Dump = Dump(out: File, pageSize: nat, maxMapnr: nat, offsetDumpBitmap: nat, offsetPage: nat,
                       bigEndian: bool, codec: Codec)

  function ByteAt(out: File, p: nat): byte { if p in out then out[p] else 0 }

  /** The bit of frame `pfn` in the bitmap at `ob`. */
  predicate Marked(out: File, ob: nat, pfn: nat) {
    TestBit(ByteAt(out, ob + pfn / 8), pfn % 8)
  }

  /** How many frames before `pfn` are marked. */
  function Rank(out: File, ob: nat, pfn: nat): nat {
    if pfn == 0 then 0 else Rank(out, ob, pfn - 1) + (if Marked(out, ob, pfn - 1) then 1 else 0)
  }

  /** A reader of the dump: the bitmap says whether the frame was dumped, its rank among the
      dumped frames selects its descriptor, and the descriptor leads to its data. */
  function ReadPage(d: Dump, pfn: nat): Option<seq<byte>> {
    if d.maxMapnr <= pfn || !Marked(d.out, d.offsetDumpBitmap, pfn) then None
    else
      var r := Rank(d.out, d.offsetDumpBitmap, pfn);
      var pd := DecodeDesc(d.bigEndian, Read(d.out, d.offsetPage + 24 * r, 24));
      Some(PageFrom(d.codec, pd.flags, Read(d.out, pd.offset, pd.size)))
  }

  /** The contents of a frame, None if the guest has no such page. */
  ghost function GuestPage(ps: seq<PageRec>, pfn: nat): Option<seq<byte>> {
    if exists k :: 0 <= k < |ps| && ps[k].pfn == pfn
    then var k :| 0 <= k < |ps| && ps[k].pfn == pfn; Some(ps[k].data)
    else None
  }

  lemma MarkedExactly(out: File, ob: nat, len: nat, pfns: set<nat>, pfn: nat)
    requires BitmapsWritten(out, ob, len, pfns) && pfn < 8 * len
    ensures Marked(out, ob, pfn) <==> pfn in pfns
    ensures Marked(out, ob + len, pfn) <==> pfn in pfns
  {
    var i := pfn / 8;
    assert Flushed(out, ob, len, pfns, i);
    assert 8 * i + pfn % 8 == pfn;
  }

  lemma InPfnSet(ps: seq<PageRec>, pfn: nat)
    ensures pfn in PfnSet(ps) <==> exists k :: 0 <= k < |ps| && ps[k].pfn == pfn
  {
  }

  /** The rank of a frame is the number of pages before it. */
  lemma {:induction false} RankCounts(out: File, ob: nat, len: nat, ps: seq<PageRec>, end: nat, size: nat, pfn: nat,
                                      r: nat)
    requires BitmapsWritten(out, ob, len, PfnSet(ps)) && pfn <= 8 * len && Ascending(ps, end, size)
    requires r <= |ps| && (forall k :: 0 <= k < r ==> ps[k].pfn < pfn)
    requires (forall k :: r <= k < |ps| ==> pfn <= ps[k].pfn)
    ensures Rank(out, ob, pfn) == r
    decreases pfn
  {
    if pfn > 0 {
      MarkedExactly(out, ob, len, PfnSet(ps), pfn - 1);
      InPfnSet(ps, pfn - 1);
      if r > 0 && ps[r - 1].pfn == pfn - 1 {
        RankCounts(out, ob, len, ps, end, size, pfn - 1, r - 1);
      } else {
        RankCounts(out, ob, len, ps, end, size, pfn - 1, r);
      }
    }
  }

  lemma HeldSlice(out: File, base: nat, data: seq<byte>, lo: nat, n: nat)
    requires Holds(out, base, data) && lo + n <= |data|
    ensures Read(out, base + lo, n) == data[lo..lo + n]
  {
    assert Holds(out, base + lo, data[lo..lo + n]);
    ReadHeld(out, base + lo, data[lo..lo + n]);
  }

  /** Page number `k` is read back through its descriptor. */
  lemma ReadBack(d: Dump, len: nat, ps: seq<PageRec>, descs: seq<PageDescriptor>, stream: seq<byte>, k: nat)
    requires BitmapsWritten(d.out, d.offsetDumpBitmap, len, PfnSet(ps)) && Ascending(ps, d.maxMapnr, d.pageSize)
    requires d.maxMapnr <= 8 * len && k < |ps|
    requires PagesWritten(d.out, d.codec, d.bigEndian, d.offsetPage, d.pageSize, ps, descs, stream)
    requires d.codec.Valid() && d.pageSize < Pow256(4) && d.offsetPage + 24 * |ps| + |stream| < Pow256(8)
    ensures ReadPage(d, ps[k].pfn) == Some(ps[k].data)
  {
    hide Pow256, EncodeAll, BitmapsWritten, PagesWritten, DecodeDesc, Codec.Valid, PfnSet, Marked, Rank, PageFrom;
    AscendingAt(ps, d.maxMapnr, d.pageSize, k);
    MarkedExactly(d.out, d.offsetDumpBitmap, len, PfnSet(ps), ps[k].pfn);
    InPfnSet(ps, ps[k].pfn);
    RankCounts(d.out, d.offsetDumpBitmap, len, ps, d.maxMapnr, d.pageSize, ps[k].pfn, k);
    DescriptorHeld(d, ps, descs, stream, k);
  }

  /** The frame of page `k` lies between those of the pages before and after. */
  lemma AscendingAt(ps: seq<PageRec>, end: nat, size: nat, k: nat)
    requires Ascending(ps, end, size) && k < |ps|
    ensures ps[k].pfn < end && (forall i :: 0 <= i < k ==> ps[i].pfn < ps[k].pfn)
    ensures forall i :: k <= i < |ps| ==> ps[k].pfn <= ps[i].pfn
  {
  }

  /** The descriptor of page `k` is read back and leads to its data. */
  lemma DescriptorHeld(d: Dump, ps: seq<PageRec>, descs: seq<PageDescriptor>, stream: seq<byte>, k: nat)
    requires PagesWritten(d.out, d.codec, d.bigEndian, d.offsetPage, d.pageSize, ps, descs, stream) && k < |ps|
    requires d.codec.Valid() && d.pageSize < Pow256(4) && d.offsetPage + 24 * |ps| + |stream| < Pow256(8)
    ensures var pd := DecodeDesc(d.bigEndian, Read(d.out, d.offsetPage + 24 * k, 24));
            PageFrom(d.codec, pd.flags, Read(d.out, pd.offset, pd.size)) == ps[k].data
  {
    hide PagesWritten, DecodeDesc, Codec.Valid, Pow256, PageFrom;
    DescriptorRead(d, ps, descs, stream, k);
    DataRead(d, ps, descs, stream, k);
  }

  lemma DescriptorRead(d: Dump, ps: seq<PageRec>, descs: seq<PageDescriptor>, stream: seq<byte>, k: nat)
    requires PagesWritten(d.out, d.codec, d.bigEndian, d.offsetPage, d.pageSize, ps, descs, stream) && k < |ps|
    requires d.codec.Valid() && d.pageSize < Pow256(4) && d.offsetPage + 24 * |ps| + |stream| < Pow256(8)
    ensures k < |descs| && DecodeDesc(d.bigEndian, Read(d.out, d.offsetPage + 24 * k, 24)) == descs[k]
  {
    hide Pow256, EncodeAll, DecodeDesc, EncodeDesc, Codec.Valid, Holds, Stored;
    var base := d.offsetPage + 24 * |ps|;
    assert Stored(d.codec, base, stream, d.pageSize, descs[k], ps[k].data);
    HeldSlice(d.out, d.offsetPage, EncodeAll(d.bigEndian, descs), 24 * k, 24);
    DescAt(d.bigEndian, descs, k);
    FlagsFit(d.codec);
    StoredFits(d.codec, base, stream, d.pageSize, descs[k], ps[k].data);
    DescDecodes(d.bigEndian, descs[k]);
  }

  lemma StoredFits(codec: Codec, base: nat, stream: seq<byte>, size: nat, pd: PageDescriptor, page: seq<byte>)
    requires Stored(codec, base, stream, size, pd, page) && base + |stream| < Pow256(8) && size < Pow256(4)
    requires codec.flag < Pow256(4)
    ensures DescFits(pd)
  {
    hide Pow256, PageFrom;
  }

  lemma DataRead(d: Dump, ps: seq<PageRec>, descs: seq<PageDescriptor>, stream: seq<byte>, k: nat)
    requires PagesWritten(d.out, d.codec, d.bigEndian, d.offsetPage, d.pageSize, ps, descs, stream) && k < |ps|
    ensures k < |descs| && PageFrom(d.codec, descs[k].flags, Read(d.out, descs[k].offset, descs[k].size)) == ps[k].data
  {
    hide EncodeAll, Holds, PageFrom, Shrinks, IsZero;
    var base, pd := d.offsetPage + 24 * |ps|, descs[k];
    assert Stored(d.codec, base, stream, d.pageSize, pd, ps[k].data);
    HeldSlice(d.out, base, stream, pd.offset - base, pd.size);
  }

  lemma FlagsFit(codec: Codec)
    requires codec.Valid()
    ensures codec.flag < Pow256(4) && 0 < Pow256(4) && 0 < Pow256(8)
  {
  }

  /** Every frame, dumped or not, reads back as the guest had it. */
  lemma ReadsBack(d: Dump, len: nat, ps: seq<PageRec>, descs: seq<PageDescriptor>, stream: seq<byte>, pfn: nat)
    requires BitmapsWritten(d.out, d.offsetDumpBitmap, len, PfnSet(ps)) && Ascending(ps, d.maxMapnr, d.pageSize)
    requires d.maxMapnr <= 8 * len
    requires PagesWritten(d.out, d.codec, d.bigEndian, d.offsetPage, d.pageSize, ps, descs, stream)
    requires d.codec.Valid() && d.pageSize < Pow256(4) && d.offsetPage + 24 * |ps| + |stream| < Pow256(8)
    ensures ReadPage(d, pfn) == GuestPage(ps, pfn)
  {
    hide Pow256, BitmapsWritten, PagesWritten, Codec.Valid, PfnSet;
    if k :| 0 <= k < |ps| && ps[k].pfn == pfn {
      ReadBack(d, len, ps, descs, stream, k);
      assert GuestPage(ps, pfn) == Some(ps[k].data);
    } else if pfn < d.maxMapnr {
      MarkedExactly(d.out, d.offsetDumpBitmap, len, PfnSet(ps), pfn);
      InPfnSet(ps, pfn);
    }
  }

  lemma BitmapsKept(out: File, out': File, lo: nat, hi: nat, ob: nat, len: nat, pfns: set<nat>)
    requires BitmapsWritten(out, ob, len, pfns) && SameOutside(out, out', lo, hi) && ob + 2 * len <= lo
    ensures BitmapsWritten(out', ob, len, pfns)
  {
    forall i: nat | i < len
      ensures Flushed(out', ob, len, pfns, i)
    {
      assert Flushed(out, ob, len, pfns, i);
    }
  }

  lemma {:induction false} PagesFitBitmap(pageSize: nat, maxMapnr: nat)
    requires 0 < pageSize
    ensures maxMapnr <= 8 * BitmapLen(pageSize, maxMapnr)
  {
    RoundUpRange(maxMapnr, 8);
    RoundUpRange(DivRoundUp(maxMapnr, 8), pageSize);
  }

  lemma HoldsWritten(f: File, offset: nat, data: seq<byte>)
    ensures Holds(Write(f, offset, data), offset, data)
  {
    forall p: nat | offset <= p < offset + |data|
      ensures p in Write(f, offset, data) && Write(f, offset, data)[p] == data[p - offset]
    {
      WriteAt(f, offset, data, p);
    }
  }

  /** write_dump_header: main header, sub header and notes. */
  method WriteDumpHeader(fd: DumpFd, pageSize: nat, dh: seq<byte>, kh: seq<byte>, notes: seq<byte>, len: nat)
    returns (ok: bool, l: Layout)
    requires 0 < pageSize
    modifies fd
    ensures l == LayoutOf(pageSize, |kh|, |notes|, len)
    ensures ok ==> HeadersHeld(fd.out, pageSize, dh, kh, notes)
    ensures ok <==> 3 <= old(fd.writesLeft)
    ensures ok ==> fd.writesLeft == old(fd.writesLeft) - 3
  {
    hide Write, LayoutOf, HeadersHeld;
    LayoutNote(pageSize, |kh|, |notes|, len);
    l := LayoutOf(pageSize, |kh|, |notes|, len);
    HeadersWritten(fd.out, pageSize, dh, kh, notes);
    ok := fd.WriteBuffer(0, dh);
    if !ok {
      return;
    }
    ok := fd.WriteBuffer(pageSize, kh);
    if !ok {
      return;
    }
    ok := fd.WriteBuffer(l.offsetNote, notes);
  }

  /** The main header is in block 0 of the file, if it fits there, the sub header at the start of block 1, and the
      notes follow it. */
  ghost predicate HeadersHeld(f: File, pageSize: nat, dh: seq<byte>, kh: seq<byte>, notes: seq<byte>) {
    && (|dh| <= pageSize ==> Holds(f, 0, dh))
    && Holds(f, pageSize, kh) && Holds(f, pageSize + |kh|, notes)
  }

  lemma HeadersWritten(f: File, pageSize: nat, dh: seq<byte>, kh: seq<byte>, notes: seq<byte>)
    ensures HeadersHeld(Write(Write(Write(f, 0, dh), pageSize, kh), pageSize + |kh|, notes), pageSize, dh, kh, notes)
  {
    hide Write, Holds;
    var f1 := Write(f, 0, dh);
    var f2 := Write(f1, pageSize, kh);
    HoldsWritten(f, 0, dh);
    HoldsWritten(f1, pageSize, kh);
    HoldsWritten(f2, pageSize + |kh|, notes);
    if |dh| <= pageSize {
      HoldsBefore(f1, 0, dh, pageSize, kh);
      HoldsBefore(f2, 0, dh, pageSize + |kh|, notes);
    }
    HoldsBefore(f2, pageSize, kh, pageSize + |kh|, notes);
  }

  lemma HoldsBefore(f: File, base: nat, held: seq<byte>, offset: nat, data: seq<byte>)
    requires Holds(f, base, held) && base + |held| <= offset
    ensures Holds(Write(f, offset, data), base, held)
  {
    hide Write;
    forall p: nat | base <= p < base + |held|
      ensures p in Write(f, offset, data) && Write(f, offset, data)[p] == held[p - base]
    {
      WriteAt(f, offset, data, p);
    }
  }

  lemma LayoutNote(pageSize: nat, khSize: nat, noteSize: nat, len: nat)
    requires 0 < pageSize
    ensures LayoutOf(pageSize, khSize, noteSize, len).offsetNote == pageSize + khSize
  {
  }

  /** The dump's offsets stay within the widths of their fields. */
  ghost predicate Fits(pageSize: nat, pfnOffset: nat, blocks: seq<Block>, khSize: nat, noteSize: nat)
    requires BlocksOk(pageSize, pfnOffset, blocks)
  {
    && 0 <= MaxMapnr(pfnOffset, blocks)
    && var head := HeadSize(pageSize, khSize, noteSize, BitmapLen(pageSize, MaxMapnr(pfnOffset, blocks)));
       var n := |Pages(pageSize, pfnOffset, blocks)|;
       head < 0x1_0000_0000 && head + 24 * n + pageSize * (n + 1) < Pow256(8)
  }

  lemma BlocksFacts(pageSize: nat, pfnOffset: nat, blocks: seq<Block>)
    requires BlocksOk(pageSize, pfnOffset, blocks)
    ensures 0 < pageSize && 0 <= MaxMapnr(pfnOffset, blocks)
    ensures Ascending(Pages(pageSize, pfnOffset, blocks), MaxMapnr(pfnOffset, blocks), pageSize)
    ensures MaxMapnr(pfnOffset, blocks) <= 8 * BitmapLen(pageSize, MaxMapnr(pfnOffset, blocks))
  {
    PagesSorted(pageSize, pfnOffset, blocks);
    PagesFitBitmap(pageSize, MaxMapnr(pfnOffset, blocks));
  }

  lemma FitsFacts(pageSize: nat, pfnOffset: nat, blocks: seq<Block>, khSize: nat, noteSize: nat)
    requires BlocksOk(pageSize, pfnOffset, blocks) && Fits(pageSize, pfnOffset, blocks, khSize, noteSize)
    ensures 0 < pageSize && 0 <= MaxMapnr(pfnOffset, blocks)
    ensures var len := BitmapLen(pageSize, MaxMapnr(pfnOffset, blocks));
            var l := LayoutOf(pageSize, khSize, noteSize, len);
            var n := |Pages(pageSize, pfnOffset, blocks)|;
            && l.offsetNote + noteSize <= l.offsetDumpBitmap && l.offsetDumpBitmap + 2 * len == l.offsetPage
            && l.offsetPage + 24 * n + pageSize * (n + 1) < Pow256(8)
  {
    var m := MaxMapnr(pfnOffset, blocks);
    var len := BitmapLen(pageSize, m);
    NotesFit(pageSize, khSize, noteSize, len);
    PagesAfterBitmaps(pageSize, khSize, noteSize, len, DivRoundUp(DivRoundUp(m, 8), pageSize));
  }

  lemma StreamBound(out: File, codec: Codec, bigEndian: bool, base: nat, size: nat, ps: seq<PageRec>,
                    descs: seq<PageDescriptor>, stream: seq<byte>)
    requires PagesWritten(out, codec, bigEndian, base, size, ps, descs, stream)
    ensures |stream| <= size * (|ps| + 1)
  {
  }

  /** Frame `pfn` of the dump is a page of block `i`. */
  ghost predicate InBlock(blocks: seq<Block>, pfnOffset: nat, pfn: nat, i: nat) {
    i < |blocks| && blocks[i].first <= pfn + pfnOffset < blocks[i].first + |blocks[i].pages|
  }

  ghost predicate InNoBlock(blocks: seq<Block>, pfnOffset: nat, pfn: nat) {
    forall i: nat :: !InBlock(blocks, pfnOffset, pfn, i)
  }

  /** The frame reads as that page and is marked in both bitmaps. */
  ghost predicate Shows(d: Dump, len: nat, pfn: nat, page: seq<byte>) {
    && ReadPage(d, pfn) == Some(page)
    && Marked(d.out, d.offsetDumpBitmap, pfn) && Marked(d.out, d.offsetDumpBitmap + len, pfn)
  }

  /** The frame is neither read nor marked. */
  ghost predicate Lacks(d: Dump, len: nat, pfn: nat) {
    && ReadPage(d, pfn) == None
    && (pfn < 8 * len ==>
          !Marked(d.out, d.offsetDumpBitmap, pfn) && !Marked(d.out, d.offsetDumpBitmap + len, pfn))
  }

  /** The frames of the dump are what the blocks have, and no more. */
  ghost predicate Mirrors(d: Dump, len: nat, pfnOffset: nat, blocks: seq<Block>) {
    && (forall pfn: nat, i: nat :: InBlock(blocks, pfnOffset, pfn, i) ==>
          Shows(d, len, pfn, blocks[i].pages[pfn + pfnOffset - blocks[i].first]))
    && (forall pfn: nat :: InNoBlock(blocks, pfnOffset, pfn) ==> Lacks(d, len, pfn))
  }

  /** The file holds the whole guest: its frames are those of the guest, the headers and notes are in their places,
      and the regions follow one another. */
  ghost predicate Faithful(d: Dump, len: nat, pfnOffset: nat, blocks: seq<Block>, dh: seq<byte>, kh: seq<byte>,
                           notes: seq<byte>) {
    && Mirrors(d, len, pfnOffset, blocks)
    && HeadersHeld(d.out, d.pageSize, dh, kh, notes)
    && d.pageSize + |kh| + |notes| <= d.offsetDumpBitmap && d.offsetDumpBitmap + 2 * len == d.offsetPage
  }

  lemma HeadersKept(out: File, out': File, lo: nat, hi: nat, pageSize: nat, dh: seq<byte>, kh: seq<byte>,
                    notes: seq<byte>)
    requires HeadersHeld(out, pageSize, dh, kh, notes) && SameOutside(out, out', lo, hi)
    requires pageSize + |kh| + |notes| <= lo
    ensures HeadersHeld(out', pageSize, dh, kh, notes)
  {
    hide Holds, SameOutside;
    if |dh| <= pageSize {
      HoldsKept(out, out', lo, hi, 0, dh);
    }
    HoldsKept(out, out', lo, hi, pageSize, kh);
    HoldsKept(out, out', lo, hi, pageSize + |kh|, notes);
  }

  /** What reads back page by page is what the blocks have. */
  lemma MirrorsBlocks(d: Dump, len: nat, pfnOffset: nat, blocks: seq<Block>)
    requires BlocksOk(d.pageSize, pfnOffset, blocks) && 0 <= MaxMapnr(pfnOffset, blocks) <= 8 * len
    requires forall pfn: nat :: ReadPage(d, pfn) == GuestPage(Pages(d.pageSize, pfnOffset, blocks), pfn)
    requires BitmapsWritten(d.out, d.offsetDumpBitmap, len, PfnSet(Pages(d.pageSize, pfnOffset, blocks)))
    ensures Mirrors(d, len, pfnOffset, blocks)
  {
    hide ReadPage, GuestPage, Marked, BitmapsWritten, Pages, BlocksOk, PfnSet, MaxMapnr, InNoBlock, Shows, Lacks;
    forall pfn: nat, i: nat | InBlock(blocks, pfnOffset, pfn, i)
      ensures Shows(d, len, pfn, blocks[i].pages[pfn + pfnOffset - blocks[i].first])
    {
      assert ReadPage(d, pfn) == GuestPage(Pages(d.pageSize, pfnOffset, blocks), pfn);
      BlockShows(d, len, pfnOffset, blocks, pfn, i);
    }
    forall pfn: nat | InNoBlock(blocks, pfnOffset, pfn) ensures Lacks(d, len, pfn) {
      assert ReadPage(d, pfn) == GuestPage(Pages(d.pageSize, pfnOffset, blocks), pfn);
      NoBlockLacks(d, len, pfnOffset, blocks, pfn);
    }
  }

  lemma BlockShows(d: Dump, len: nat, pfnOffset: nat, blocks: seq<Block>, pfn: nat, i: nat)
    requires BlocksOk(d.pageSize, pfnOffset, blocks) && 0 <= MaxMapnr(pfnOffset, blocks) <= 8 * len
    requires ReadPage(d, pfn) == GuestPage(Pages(d.pageSize, pfnOffset, blocks), pfn)
    requires BitmapsWritten(d.out, d.offsetDumpBitmap, len, PfnSet(Pages(d.pageSize, pfnOffset, blocks)))
    requires InBlock(blocks, pfnOffset, pfn, i)
    ensures Shows(d, len, pfn, blocks[i].pages[pfn + pfnOffset - blocks[i].first])
  {
    hide ReadPage, GuestPage, Marked, BitmapsWritten, Pages, BlocksOk, PfnSet, MaxMapnr;
    GuestHas(d.pageSize, pfnOffset, blocks, i, pfn);
    MarkedExactly(d.out, d.offsetDumpBitmap, len, PfnSet(Pages(d.pageSize, pfnOffset, blocks)), pfn);
  }

  lemma NoBlockLacks(d: Dump, len: nat, pfnOffset: nat, blocks: seq<Block>, pfn: nat)
    requires BlocksOk(d.pageSize, pfnOffset, blocks) && InNoBlock(blocks, pfnOffset, pfn)
    requires ReadPage(d, pfn) == GuestPage(Pages(d.pageSize, pfnOffset, blocks), pfn)
    requires BitmapsWritten(d.out, d.offsetDumpBitmap, len, PfnSet(Pages(d.pageSize, pfnOffset, blocks)))
    ensures Lacks(d, len, pfn)
  {
    hide ReadPage, GuestPage, Marked, BitmapsWritten, Pages, BlocksOk, PfnSet, InNoBlock;
    GuestHasNot(d.pageSize, pfnOffset, blocks, pfn);
    if pfn < 8 * len {
      MarkedExactly(d.out, d.offsetDumpBitmap, len, PfnSet(Pages(d.pageSize, pfnOffset, blocks)), pfn);
    }
  }

  lemma GuestHas(pageSize: nat, pfnOffset: nat, blocks: seq<Block>, i: nat, pfn: nat)
    requires BlocksOk(pageSize, pfnOffset, blocks) && InBlock(blocks, pfnOffset, pfn, i)
    ensures var ps := Pages(pageSize, pfnOffset, blocks);
            && GuestPage(ps, pfn) == Some(blocks[i].pages[pfn + pfnOffset - blocks[i].first])
            && pfn in PfnSet(ps) && pfn < MaxMapnr(pfnOffset, blocks)
  {
    var ps := Pages(pageSize, pfnOffset, blocks);
    var j := pfn + pfnOffset - blocks[i].first;
    PageOfBlock(pageSize, pfnOffset, blocks, i, j);
    PagesSorted(pageSize, pfnOffset, blocks);
    hide Pages, BlocksOk, MaxMapnr;
    var k := Start(pageSize, pfnOffset, blocks, i) + j;
    InPfnSet(ps, pfn);
    assert ps[k].pfn == pfn;
    OnlyPage(ps, MaxMapnr(pfnOffset, blocks), pageSize, k);
  }

  lemma OnlyPage(ps: seq<PageRec>, end: nat, size: nat, k: nat)
    requires Ascending(ps, end, size) && k < |ps|
    ensures GuestPage(ps, ps[k].pfn) == Some(ps[k].data) && ps[k].pfn < end
  {
  }

  lemma GuestHasNot(pageSize: nat, pfnOffset: nat, blocks: seq<Block>, pfn: nat)
    requires BlocksOk(pageSize, pfnOffset, blocks) && InNoBlock(blocks, pfnOffset, pfn)
    ensures var ps := Pages(pageSize, pfnOffset, blocks); GuestPage(ps, pfn) == None && pfn !in PfnSet(ps)
  {
    var ps := Pages(pageSize, pfnOffset, blocks);
    InPfnSet(ps, pfn);
    forall k | 0 <= k < |ps| ensures ps[k].pfn != pfn {
      PageInBlock(pageSize, pfnOffset, blocks, k);
      assert !InBlock(blocks, pfnOffset, pfn, ps[k].block);
    }
  }

  /** create_kdump_vmcore: if no write fails and the offsets fit, the file holds the whole guest. */
  method CreateKdumpVmcore(pageSize: nat, pfnOffset: nat, blocks: seq<Block>, codec: Codec, bigEndian: bool,
                           dh: seq<byte>, kh: seq<byte>, notes: seq<byte>, writesLeft: nat)
    returns (ok: bool, d: Dump, len: nat)
    requires codec.Valid() && BlocksOk(pageSize, pfnOffset, blocks) && blocks != []
    requires 24 <= 4 * pageSize && pageSize < Pow256(4)
    ensures ok && Fits(pageSize, pfnOffset, blocks, |kh|, |notes|) ==>
              Faithful(d, len, pfnOffset, blocks, dh, kh, notes)
    ensures WritesEnough(pageSize, pfnOffset, blocks) <= writesLeft ==> ok
  {
    hide Fits, Faithful, HeadersHeld, BitmapsWritten, SameOutside, PagesWritten, Pages, BlocksOk, LayoutOf, BitmapLen,
         BitmapBuffers, Pow256, PfnSet, MaxMapnr, Ascending, Codec.Valid;
    BlocksFacts(pageSize, pfnOffset, blocks);
    ghost var ps := Pages(pageSize, pfnOffset, blocks);
    var maxMapnr := MaxMapnr(pfnOffset, blocks);
    len := BitmapLen(pageSize, maxMapnr);
    var fd := new DumpFd(writesLeft);
    var l, n;
    d := Dump(fd.out, pageSize, maxMapnr, 0, 0, bigEndian, codec);
    ok, l := WriteDumpHeader(fd, pageSize, dh, kh, notes, len);
    if !ok {
      return;
    }
    ghost var out1 := fd.out;
    ok, n := WriteDumpBitmap(fd, pageSize, pfnOffset, blocks, l.offsetDumpBitmap, len);
    if !ok {
      return;
    }
    ghost var out2 := fd.out;
    ghost var descs, stream;
    ok, descs, stream := WriteDumpPages(fd, pageSize, pfnOffset, blocks, codec, bigEndian, l.offsetPage, n);
    if !ok {
      return;
    }
    d := Dump(fd.out, pageSize, maxMapnr, l.offsetDumpBitmap, l.offsetPage, bigEndian, codec);
    if Fits(pageSize, pfnOffset, blocks, |kh|, |notes|) {
      FitsFacts(pageSize, pfnOffset, blocks, |kh|, |notes|);
      LayoutNote(pageSize, |kh|, |notes|, len);
      AllHeld(out1, out2, d, len, pfnOffset, blocks, descs, stream, dh, kh, notes);
    }
  }

  /** So many writes always do: three for headers and notes, two for each block of a bitmap, and for the pages at most
      two each, one for the shared zero page and two to empty the caches. */
  ghost function WritesEnough(pageSize: nat, pfnOffset: nat, blocks: seq<Block>): nat
    requires BlocksOk(pageSize, pfnOffset, blocks)
  {
    PagesSorted(pageSize, pfnOffset, blocks);
    3 + 2 * BitmapBuffers(pageSize, MaxMapnr(pfnOffset, blocks)) + 2 * |Pages(pageSize, pfnOffset, blocks)| + 3
  }

  /** Header, bitmaps and pages do not disturb one another. */
  lemma AllHeld(out1: File, out2: File, d: Dump, len: nat, pfnOffset: nat, blocks: seq<Block>,
                descs: seq<PageDescriptor>, stream: seq<byte>, dh: seq<byte>, kh: seq<byte>, notes: seq<byte>)
    requires BlocksOk(d.pageSize, pfnOffset, blocks) && MaxMapnr(pfnOffset, blocks) == d.maxMapnr <= 8 * len
    requires HeadersHeld(out1, d.pageSize, dh, kh, notes) && d.pageSize + |kh| + |notes| <= d.offsetDumpBitmap
    requires SameOutside(out1, out2, d.offsetDumpBitmap, d.offsetDumpBitmap + 2 * len)
    requires BitmapsWritten(out2, d.offsetDumpBitmap, len, PfnSet(Pages(d.pageSize, pfnOffset, blocks)))
    requires d.offsetDumpBitmap + 2 * len == d.offsetPage && d.codec.Valid() && d.pageSize < Pow256(4)
    requires var ps := Pages(d.pageSize, pfnOffset, blocks);
             && PagesWritten(d.out, d.codec, d.bigEndian, d.offsetPage, d.pageSize, ps, descs, stream)
             && SameOutside(out2, d.out, d.offsetPage, d.offsetPage + 24 * |ps| + |stream|)
             && Ascending(ps, d.maxMapnr, d.pageSize)
             && d.offsetPage + 24 * |ps| + d.pageSize * (|ps| + 1) < Pow256(8)
    ensures Faithful(d, len, pfnOffset, blocks, dh, kh, notes)
  {
    hide HeadersHeld, BitmapsWritten, SameOutside, PagesWritten, Pow256, PfnSet, Ascending, Codec.Valid, ReadPage,
         GuestPage, Pages, BlocksOk, MaxMapnr, Mirrors;
    var ps := Pages(d.pageSize, pfnOffset, blocks);
    var end := d.offsetPage + 24 * |ps| + |stream|;
    HeadersKept(out1, out2, d.offsetDumpBitmap, d.offsetDumpBitmap + 2 * len, d.pageSize, dh, kh, notes);
    HeadersKept(out2, d.out, d.offsetPage, end, d.pageSize, dh, kh, notes);
    BitmapsKept(out2, d.out, d.offsetPage, end, d.offsetDumpBitmap, len, PfnSet(ps));
    StreamBound(d.out, d.codec, d.bigEndian, d.offsetPage, d.pageSize, ps, descs, stream);
    forall pfn: nat
      ensures ReadPage(d, pfn) == GuestPage(ps, pfn)
    {
      ReadsBack(d, len, ps, descs, stream, pfn);
    }
    MirrorsBlocks(d, len, pfnOffset, blocks);
  }

  /** A guest with a page at 64 TiB, whose bitmaps take 2 GiB each: the code lets the page descriptors
      start inside them. */
  lemma DescriptorsOverwriteBitmaps(khSize: nat, noteSize: nat) returns (blocks: seq<Block>)
    requires BitmapStart(4096, khSize, noteSize) < 0x1_0000_0000
    ensures BlocksOk(4096, 0, blocks) && MaxMapnr(0, blocks) == 0x4_0000_0000
    ensures var len := BitmapLen(4096, 0x4_0000_0000); var l := LayoutOf(4096, khSize, noteSize, len);
            len == 0x8000_0000 && l.offsetPage < l.offsetDumpBitmap + 2 * len
  {
    blocks := [Block(0x3_FFFF_FFFF, [Zeros(4096)])];
    assert BitmapLen(4096, 0x4_0000_0000) == 0x8_0000 * 4096;
    PagesAfterBitmaps(4096, khSize, noteSize, 0x8000_0000, 0x8_0000);
  }
}
