/** The two dump bitmaps: set_dump_bitmap and write_dump_bitmap (qemu/dump.c). */
module KdumpBitmap {
  import opened Common
  import opened Arithmetic
  import opened KdumpFile
  import opened KdumpPages

  /** The dump file descriptor. A write fails once `writesLeft` is used up. */
  class DumpFd {
    var out: File
    var writesLeft: nat

    constructor (writesLeft: nat)
      ensures out == map[] && this.writesLeft == writesLeft
    {
      out := map[];
      this.writesLeft := writesLeft;
    }

    /** write_buffer */
    method WriteBuffer(offset: nat, data: seq<byte>) returns (ok: bool)
      modifies this
      ensures ok <==> old(writesLeft) > 0
      ensures ok ==> out == Write(old(out), offset, data) && writesLeft == old(writesLeft) - 1
      ensures !ok ==> out == old(out) && writesLeft == 0
    {
      ok := writesLeft > 0;
      if ok {
        writesLeft := writesLeft - 1;
        out := Write(out, offset, data);
      }
    }
  }

  /** Byte number `i` of the bitmap of the set `pfns`. */
  ghost predicate ByteShows(b: byte, pfns: set<nat>, i: nat) {
    forall bit: nat :: bit < 8 ==> (TestBit(b, bit) <==> 8 * i + bit in pfns)
  }

  /** Bytes [0, base) of the bitmap of `pfns` are in the file, twice, and `buf` holds those from `base` on. */
  ghost predicate BitmapState(out: File, buf: seq<byte>, pageSize: nat, ob: nat, len: nat, pfns: set<nat>, base: nat) {
    && |buf| == pageSize && 0 < pageSize
    && (forall i: nat :: i < base ==> Flushed(out, ob, len, pfns, i))
    && (forall j: nat :: j < pageSize ==> ByteShows(buf[j], pfns, base + j))
    && (forall x :: x in pfns ==> x < 8 * (base + pageSize))
  }

  ghost predicate Flushed(out: File, ob: nat, len: nat, pfns: set<nat>, i: nat) {
    && ob + i in out && ob + len + i in out
    && out[ob + len + i] == out[ob + i] && ByteShows(out[ob + i], pfns, i)
  }

  lemma ZeroShows(pfns: set<nat>, i: nat)
    requires forall x :: x in pfns ==> x < 8 * i
    ensures ByteShows(0, pfns, i)
  {
    forall bit: nat | bit < 8
      ensures !TestBit(0, bit)
    {
      ZeroBits(bit);
    }
  }

  lemma ByteBits(b: byte, bit: nat, value: bool, k: nat)
    requires bit < 8
    ensures TestBit(ByteWithBit(b, bit, value), k) == if k == bit then value else TestBit(b, k)
  {
    assert Pow2(8) == 256 by { assert Pow2(4) == 16; }
    WithBitTests(b, bit, value, 8, k);
  }

  /** Writing the buffer to both bitmaps and clearing it moves on to the next buffer. */
  lemma FlushStep(out: File, out': File, buf: seq<byte>, pageSize: nat, ob: nat, len: nat, pfns: set<nat>, base: nat)
    requires BitmapState(out, buf, pageSize, ob, len, pfns, base) && base + pageSize <= len
    requires out' == Write(Write(out, ob + base, buf), ob + len + base, buf)
    ensures BitmapState(out', Zeros(pageSize), pageSize, ob, len, pfns, base + pageSize)
    ensures SameOutside(out, out', ob, ob + 2 * len)
  {
    hide Write;
    var out1 := Write(out, ob + base, buf);
    forall i: nat | i < base + pageSize
      ensures Flushed(out', ob, len, pfns, i)
    {
      WriteAt(out, ob + base, buf, ob + i);
      WriteAt(out1, ob + len + base, buf, ob + i);
      WriteAt(out, ob + base, buf, ob + len + i);
      WriteAt(out1, ob + len + base, buf, ob + len + i);
      if i < base {
        assert Flushed(out, ob, len, pfns, i);
      }
    }
    var zeros := Zeros(pageSize);
    forall j: nat | j < pageSize
      ensures ByteShows(zeros[j], pfns, base + pageSize + j)
    {
      ZeroShows(pfns, base + pageSize + j);
    }
    forall p: nat | !(ob <= p < ob + 2 * len)
      ensures (p in out' <==> p in out) && (p in out ==> out'[p] == out[p])
    {
      WriteAt(out, ob + base, buf, p);
      WriteAt(out1, ob + len + base, buf, p);
    }
  }

  /** The bit of `pfn` in a buffer that starts at byte `base`. */
  lemma BitStep(out: File, buf: seq<byte>, pageSize: nat, ob: nat, len: nat, pfns: set<nat>, base: nat,
                pos: nat, bit: nat, value: bool)
    requires BitmapState(out, buf, pageSize, ob, len, pfns, base) && pos < pageSize && bit < 8
    ensures var pfn := 8 * (base + pos) + bit;
            BitmapState(out, buf[pos := ByteWithBit(buf[pos], bit, value)], pageSize, ob, len,
                        if value then pfns + {pfn} else pfns - {pfn}, base)
  {
    var pfn := 8 * (base + pos) + bit;
    var pfns' := if value then pfns + {pfn} else pfns - {pfn};
    var buf' := buf[pos := ByteWithBit(buf[pos], bit, value)];
    forall i: nat | i < base
      ensures Flushed(out, ob, len, pfns', i)
    {
      assert Flushed(out, ob, len, pfns, i);
    }
    forall j: nat | j < pageSize
      ensures ByteShows(buf'[j], pfns', base + j)
    {
      assert ByteShows(buf[j], pfns, base + j);
      forall k: nat | k < 8
        ensures TestBit(buf'[j], k) <==> 8 * (base + j) + k in pfns'
      {
        if j == pos {
          ByteBits(buf[pos], bit, value, k);
        }
        assert 8 * (base + j) + k == pfn <==> j == pos && k == bit;
      }
    }
  }

  /** The number of the buffer that holds a frame's bit. */
  function BufferOf(pageSize: nat, pfn: nat): nat
    requires 0 < pageSize
  {
    BitsPositive(pageSize);
    Quotient(pfn, pageSize * 8)
  }

  /** Where that buffer starts in the bitmap. */
  function BufferBase(pageSize: nat, pfn: nat): nat
    requires 0 < pageSize
  {
    pageSize * BufferOf(pageSize, pfn)
  }

  lemma BitsPositive(pageSize: nat)
    requires 0 < pageSize
    ensures 0 < pageSize * 8
  {
  }

  /** Where a frame's bit is: which buffer, which byte of it, which bit. */
  lemma BitPosition(pageSize: nat, pfn: nat)
    requires 0 < pageSize
    ensures 0 < pageSize * 8
    ensures var r := pfn % (pageSize * 8);
            r / 8 < pageSize && pfn == 8 * (BufferBase(pageSize, pfn) + r / 8) + r % 8
  {
    var bits := pageSize * 8;
    var q, r := Quotient(pfn, bits), pfn % bits;
    assert pfn == bits * q + r;
    assert bits * q == 8 * (pageSize * q);
  }

  /** `y` is `n` buffers after `x`. */
  ghost predicate BuffersApart(pageSize: nat, x: nat, y: nat, n: nat) {
    y == x + n * pageSize
  }

  lemma BuffersOrder(pageSize: nat, a: nat, b: nat)
    requires 0 < pageSize && a <= b
    ensures BufferOf(pageSize, a) <= BufferOf(pageSize, b)
    ensures BuffersApart(pageSize, BufferBase(pageSize, a), BufferBase(pageSize, b),
                         BufferOf(pageSize, b) - BufferOf(pageSize, a))
  {
    var i, j := BufferOf(pageSize, a), BufferOf(pageSize, b);
    QuotientOrder(a, b, pageSize * 8);
    assert pageSize * j == pageSize * i + (j - i) * pageSize;
  }

  lemma QuotientOrder(a: nat, b: nat, m: nat)
    requires a <= b && 0 < m
    ensures a / m <= b / m
  {
    DivRange(a, m);
    DivRange(b, m);
    if b / m < a / m {
      MulStep(b / m, a / m, m);
    }
  }

  lemma NextBuffer(pageSize: nat, x: nat, y: nat, n: nat)
    requires BuffersApart(pageSize, x, y, n)
    ensures x <= y
    ensures x < y ==> 0 < n && x + pageSize <= y && BuffersApart(pageSize, x + pageSize, y, n - 1)
    ensures 0 < pageSize && x == y ==> n == 0
  {
    if n > 0 {
      assert n * pageSize == pageSize + (n - 1) * pageSize;
    }
  }

  lemma SameOutsideWider(f: File, f': File, lo: nat, hi: nat, lo': nat, hi': nat)
    requires SameOutside(f, f', lo, hi) && lo' <= lo && hi <= hi'
    ensures SameOutside(f, f', lo', hi')
  {
  }

  lemma SameOutsideThen(f: File, f1: File, f2: File, lo: nat, hi: nat)
    requires SameOutside(f, f1, lo, hi) && SameOutside(f1, f2, lo, hi)
    ensures SameOutside(f, f2, lo, hi)
  {
  }

  /** set_dump_bitmap. `pfns` are the frames marked so far. */
  method SetDumpBitmap(fd: DumpFd, buf: array<byte>, pageSize: nat, ob: nat, len: nat, ghost pfns: set<nat>,
                       lastPfn: nat, pfn: nat, value: bool) returns (ok: bool)
    requires 0 < pageSize == buf.Length && lastPfn <= pfn && BufferBase(pageSize, pfn) <= len
    requires BitmapState(fd.out, buf[..], pageSize, ob, len, pfns, BufferBase(pageSize, lastPfn))
    modifies fd, buf
    ensures ok ==> SameOutside(old(fd.out), fd.out, ob, ob + 2 * len)
    ensures ok ==> BitmapState(fd.out, buf[..], pageSize, ob, len, if value then pfns + {pfn} else pfns - {pfn},
                               BufferBase(pageSize, pfn))
    ensures BufferOf(pageSize, lastPfn) <= BufferOf(pageSize, pfn)
    ensures ok <==> 2 * (BufferOf(pageSize, pfn) - BufferOf(pageSize, lastPfn)) <= old(fd.writesLeft)
    ensures ok ==>
              fd.writesLeft == old(fd.writesLeft) - 2 * (BufferOf(pageSize, pfn) - BufferOf(pageSize, lastPfn))
  {
    hide BitmapState, BuffersApart, SameOutside, BufferBase, BufferOf, ByteWithBit;
    var oldOffset := BufferBase(pageSize, lastPfn);
    var newOffset := BufferBase(pageSize, pfn);
    ghost var out0 := fd.out;
    BuffersOrder(pageSize, lastPfn, pfn);
    ghost var n: nat := BufferOf(pageSize, pfn) - BufferOf(pageSize, lastPfn);
    ghost var m: nat := n;
    NextBuffer(pageSize, oldOffset, newOffset, m);
    SameOutsideSelf(out0, ob, ob + 2 * len);
    ok := true;
    while oldOffset < newOffset
      invariant oldOffset <= newOffset && BuffersApart(pageSize, oldOffset, newOffset, m)
      invariant m <= n && fd.writesLeft + 2 * (n - m) == old(fd.writesLeft)
      invariant BitmapState(fd.out, buf[..], pageSize, ob, len, pfns, oldOffset)
      invariant SameOutside(out0, fd.out, ob, ob + 2 * len)
    {
      NextBuffer(pageSize, oldOffset, newOffset, m);
      ok := FlushBuffer(fd, buf, pageSize, ob, len, pfns, oldOffset, out0);
      if !ok {
        return;
      }
      oldOffset := oldOffset + pageSize;
      m := m - 1;
      NextBuffer(pageSize, oldOffset, newOffset, m);
    }
    NextBuffer(pageSize, oldOffset, newOffset, m);
    BitPosition(pageSize, pfn);
    var pos := (pfn % (pageSize * 8)) / 8;
    var bit := (pfn % (pageSize * 8)) % 8;
    BitStep(fd.out, buf[..], pageSize, ob, len, pfns, newOffset, pos, bit, value);
    ghost var b2 := buf[..];
    buf[pos] := ByteWithBit(buf[pos], bit, value);
    assert buf[..] == b2[pos := ByteWithBit(b2[pos], bit, value)];
  }

  lemma SameOutsideSelf(f: File, lo: nat, hi: nat)
    ensures SameOutside(f, f, lo, hi)
  {
  }

  /** The loop body of set_dump_bitmap: the buffer goes to both bitmaps and is cleared. */
  method FlushBuffer(fd: DumpFd, buf: array<byte>, pageSize: nat, ob: nat, len: nat, ghost pfns: set<nat>,
                     offset: nat, ghost out0: File) returns (ok: bool)
    requires 0 < pageSize == buf.Length && offset + pageSize <= len
    requires BitmapState(fd.out, buf[..], pageSize, ob, len, pfns, offset)
    requires SameOutside(out0, fd.out, ob, ob + 2 * len)
    modifies fd, buf
    ensures ok ==> BitmapState(fd.out, buf[..], pageSize, ob, len, pfns, offset + pageSize)
    ensures ok ==> SameOutside(out0, fd.out, ob, ob + 2 * len)
    ensures ok <==> 2 <= old(fd.writesLeft)
    ensures ok ==> fd.writesLeft == old(fd.writesLeft) - 2
  {
    hide BitmapState, SameOutside, Write, Zeros;
    ghost var out1, b1 := fd.out, buf[..];
    ok := fd.WriteBuffer(ob + offset, buf[..]);
    if !ok {
      return;
    }
    assert buf[..] == b1;
    ok := fd.WriteBuffer(ob + len + offset, buf[..]);
    if !ok {
      return;
    }
    FlushStep(out1, fd.out, b1, pageSize, ob, len, pfns, offset);
    SameOutsideThen(out0, out1, fd.out, ob, ob + 2 * len);
    ClearBuffer(buf);
  }

  /** memset(buf, 0, size) */
  method ClearBuffer(buf: array<byte>)
    modifies buf
    ensures buf[..] == Zeros(buf.Length)
  {
    for i := 0 to buf.Length
      invariant forall j :: 0 <= j < i ==> buf[j] == 0
    {
      buf[i] := 0;
    }
  }

  ghost function PfnSet(ps: seq<PageRec>): set<nat> {
    set i | 0 <= i < |ps| :: ps[i].pfn
  }

  lemma PfnSetNext(ps: seq<PageRec>, k: nat)
    requires k < |ps|
    ensures PfnSet(ps[..k + 1]) == PfnSet(ps[..k]) + {ps[k].pfn}
  {
    var a, b := PfnSet(ps[..k + 1]), PfnSet(ps[..k]) + {ps[k].pfn};
    forall x | x in b
      ensures x in a
    {
      if x == ps[k].pfn {
        assert ps[..k + 1][k].pfn == x;
      } else {
        var i :| 0 <= i < k && ps[..k][i].pfn == x;
        assert ps[..k + 1][i].pfn == x;
      }
    }
    forall x | x in a
      ensures x in b
    {
      var i :| 0 <= i < k + 1 && ps[..k + 1][i].pfn == x;
      if i < k {
        assert ps[..k][i].pfn == x;
      }
    }
  }

  /** DIV_ROUND_UP */
  function DivRoundUp(n: nat, d: nat): nat
    requires 0 < d
  {
    Quotient(n + d - 1, d)
  }

  /** How many buffers make a bitmap. */
  function BitmapBuffers(pageSize: nat, maxMapnr: nat): nat
    requires 0 < pageSize
  {
    DivRoundUp(DivRoundUp(maxMapnr, 8), pageSize)
  }

  /** len_dump_bitmap */
  function BitmapLen(pageSize: nat, maxMapnr: nat): nat
    requires 0 < pageSize
  {
    BitmapBuffers(pageSize, maxMapnr) * pageSize
  }

  lemma RoundUpPositive(n: nat, d: nat)
    requires 0 < n && 0 < d
    ensures DivRoundUp(n, d) == Quotient(n - 1, d) + 1
  {
    DivAddMultiple(n - 1, d, 1);
    assert d * 1 + (n - 1) == n + d - 1;
  }

  /** The bitmap ends with the buffer of the last frame. */
  lemma LastBuffer(pageSize: nat, maxMapnr: nat)
    requires 0 < pageSize && 0 < maxMapnr
    ensures BufferOf(pageSize, maxMapnr - 1) + 1 == BitmapBuffers(pageSize, maxMapnr)
    ensures BufferBase(pageSize, maxMapnr - 1) + pageSize == BitmapLen(pageSize, maxMapnr)
  {
    var last := maxMapnr - 1;
    RoundUpPositive(maxMapnr, 8);
    RoundUpPositive(Quotient(last, 8) + 1, pageSize);
    DivDiv(last, 8, pageSize);
    BitsPositive(pageSize);
    var q := Quotient(last, pageSize * 8);
    assert (q + 1) * pageSize == pageSize * q + pageSize;
  }

  /** One whole buffer of bits further is the next buffer. */
  lemma NextBufferBase(pageSize: nat, pfn: nat)
    requires 0 < pageSize
    ensures BufferOf(pageSize, pfn + pageSize * 8) == BufferOf(pageSize, pfn) + 1
    ensures BufferBase(pageSize, pfn + pageSize * 8) == BufferBase(pageSize, pfn) + pageSize
  {
    BitsPositive(pageSize);
    var bits := pageSize * 8;
    DivAddMultiple(pfn, bits, 1);
    assert bits * 1 + pfn == pfn + pageSize * 8;
    var q := Quotient(pfn, bits);
    assert pageSize * (q + 1) == pageSize * q + pageSize;
  }

  lemma BaseOrder(pageSize: nat, a: nat, b: nat)
    requires 0 < pageSize && a <= b
    ensures BufferOf(pageSize, a) <= BufferOf(pageSize, b) && BufferBase(pageSize, a) <= BufferBase(pageSize, b)
  {
    BuffersOrder(pageSize, a, b);
    NextBuffer(pageSize, BufferBase(pageSize, a), BufferBase(pageSize, b),
               BufferOf(pageSize, b) - BufferOf(pageSize, a));
  }

  lemma EmptyBitmap(out: File, pageSize: nat, ob: nat, len: nat)
    requires 0 < pageSize
    ensures BufferOf(pageSize, 0) == BufferBase(pageSize, 0) == 0
    ensures BitmapState(out, Zeros(pageSize), pageSize, ob, len, {}, 0)
  {
    forall j: nat | j < pageSize
      ensures ByteShows(Zeros(pageSize)[j], {}, 0 + j)
    {
      ZeroShows({}, j);
    }
    BitsPositive(pageSize);
    assert Quotient(0, pageSize * 8) == 0;
  }

  /** Both bitmaps are complete: they are equal and mark exactly the frames of `pfns`. */
  ghost predicate BitmapsWritten(out: File, ob: nat, len: nat, pfns: set<nat>) {
    forall i: nat :: i < len ==> Flushed(out, ob, len, pfns, i)
  }

  lemma StateWritten(out: File, buf: seq<byte>, pageSize: nat, ob: nat, len: nat, pfns: set<nat>)
    requires BitmapState(out, buf, pageSize, ob, len, pfns, len)
    ensures BitmapsWritten(out, ob, len, pfns)
  {
  }

  /** What one round of write_dump_bitmap needs and what it leaves. */
  lemma RoundFacts(pageSize: nat, pfnOffset: nat, blocks: seq<Block>, k: nat)
    requires BlocksOk(pageSize, pfnOffset, blocks) && blocks != [] && k < |Pages(pageSize, pfnOffset, blocks)|
    ensures var ps := Pages(pageSize, pfnOffset, blocks);
            && 0 < MaxMapnr(pfnOffset, blocks)
            && (0 < k ==> ps[k - 1].pfn <= ps[k].pfn)
            && BufferBase(pageSize, ps[k].pfn) <= BitmapLen(pageSize, MaxMapnr(pfnOffset, blocks))
            && BufferOf(pageSize, ps[k].pfn) < BitmapBuffers(pageSize, MaxMapnr(pfnOffset, blocks))
            && PfnSet(ps[..k + 1]) == PfnSet(ps[..k]) + {ps[k].pfn}
  {
    var ps := Pages(pageSize, pfnOffset, blocks);
    PagesSorted(pageSize, pfnOffset, blocks);
    PfnSetNext(ps, k);
    BaseOrder(pageSize, ps[k].pfn, MaxMapnr(pfnOffset, blocks) - 1);
    LastBuffer(pageSize, MaxMapnr(pfnOffset, blocks));
  }

  lemma LastRoundFacts(pageSize: nat, pfnOffset: nat, blocks: seq<Block>, last: nat)
    requires BlocksOk(pageSize, pfnOffset, blocks) && blocks != []
    requires var ps := Pages(pageSize, pfnOffset, blocks); 0 < |ps| && last == ps[|ps| - 1].pfn
    ensures 0 < MaxMapnr(pfnOffset, blocks)
    ensures BufferOf(pageSize, last + pageSize * 8) == BitmapBuffers(pageSize, MaxMapnr(pfnOffset, blocks))
    ensures BufferBase(pageSize, last + pageSize * 8) == BitmapLen(pageSize, MaxMapnr(pfnOffset, blocks))
    ensures last + pageSize * 8 !in PfnSet(Pages(pageSize, pfnOffset, blocks))
  {
    var ps := Pages(pageSize, pfnOffset, blocks);
    PagesSorted(pageSize, pfnOffset, blocks);
    LastBuffer(pageSize, MaxMapnr(pfnOffset, blocks));
    NextBufferBase(pageSize, last);
  }

  /** write_dump_bitmap */
  method WriteDumpBitmap(fd: DumpFd, pageSize: nat, pfnOffset: nat, blocks: seq<Block>, ob: nat, len: nat)
    returns (ok: bool, numDumpable: nat)
    requires BlocksOk(pageSize, pfnOffset, blocks) && blocks != []
    requires 0 <= MaxMapnr(pfnOffset, blocks) && len == BitmapLen(pageSize, MaxMapnr(pfnOffset, blocks))
    modifies fd
    ensures ok ==> numDumpable == |Pages(pageSize, pfnOffset, blocks)|
    ensures ok ==> SameOutside(old(fd.out), fd.out, ob, ob + 2 * len)
    ensures ok ==> BitmapsWritten(fd.out, ob, len, PfnSet(Pages(pageSize, pfnOffset, blocks)))
    ensures ok <==> 2 * BitmapBuffers(pageSize, MaxMapnr(pfnOffset, blocks)) <= old(fd.writesLeft)
    ensures ok ==>
              fd.writesLeft == old(fd.writesLeft) - 2 * BitmapBuffers(pageSize, MaxMapnr(pfnOffset, blocks))
  {
    hide BitmapState, SameOutside, BufferBase, BufferOf, BitmapBuffers, BitmapLen, Zeros, Pages, AtPage,
         BitmapsWritten, PfnSet, BlocksOk, MaxMapnr;
    ghost var ps := Pages(pageSize, pfnOffset, blocks);
    ghost var out0 := fd.out;
    PageSizePositive(pageSize, pfnOffset, blocks);
    var buf := new byte[pageSize];
    ClearBuffer(buf);
    EmptyBitmap(fd.out, pageSize, ob, len);
    SameOutsideSelf(out0, ob, ob + 2 * len);
    numDumpable := 0;
    var lastPfn, pfn, iter := 0, 0, Before;
    var more, data;
    EmptyPfns(ps);
    while true
      invariant 0 <= numDumpable <= |ps| && fresh(buf) && buf.Length == pageSize
      invariant numDumpable == 0 ==> iter.Before? && lastPfn == 0
      invariant numDumpable > 0 ==> iter.On? && AtPage(pageSize, pfnOffset, blocks, iter.block, pfn, numDumpable - 1)
                                    && lastPfn == pfn && pfn == ps[numDumpable - 1].pfn
      invariant BitmapState(fd.out, buf[..], pageSize, ob, len, PfnSet(ps[..numDumpable]),
                            BufferBase(pageSize, lastPfn))
      invariant SameOutside(out0, fd.out, ob, ob + 2 * len)
      invariant fd.writesLeft + 2 * BufferOf(pageSize, lastPfn) == old(fd.writesLeft)
      decreases |ps| - numDumpable
    {
      more, iter, pfn, data := GetNextPage(pageSize, pfnOffset, blocks, iter, pfn, numDumpable - 1);
      if !more {
        break;
      }
      RoundFacts(pageSize, pfnOffset, blocks, numDumpable);
      ghost var out1 := fd.out;
      ok := SetDumpBitmap(fd, buf, pageSize, ob, len, PfnSet(ps[..numDumpable]), lastPfn, pfn, true);
      if !ok {
        return;
      }
      SameOutsideThen(out0, out1, fd.out, ob, ob + 2 * len);
      lastPfn := pfn;
      numDumpable := numDumpable + 1;
    }
    assert ps[..numDumpable] == ps;
    if numDumpable > 0 {
      LastRoundFacts(pageSize, pfnOffset, blocks, lastPfn);
      ghost var out1 := fd.out;
      ok := SetDumpBitmap(fd, buf, pageSize, ob, len, PfnSet(ps), lastPfn, lastPfn + pageSize * 8, false);
      if !ok {
        return;
      }
      SameOutsideThen(out0, out1, fd.out, ob, ob + 2 * len);
      assert PfnSet(ps) - {lastPfn + pageSize * 8} == PfnSet(ps);
      StateWritten(fd.out, buf[..], pageSize, ob, len, PfnSet(ps));
    } else {
      NoEmptyDump(pageSize, pfnOffset, blocks);
    }
  }

  lemma PageSizePositive(pageSize: nat, pfnOffset: nat, blocks: seq<Block>)
    requires BlocksOk(pageSize, pfnOffset, blocks)
    ensures 0 < pageSize
  {
  }

  lemma EmptyPfns(ps: seq<PageRec>)
    ensures PfnSet(ps[..0]) == {}
  {
  }

  lemma NoEmptyDump(pageSize: nat, pfnOffset: nat, blocks: seq<Block>)
    requires BlocksOk(pageSize, pfnOffset, blocks) && blocks != []
    ensures Pages(pageSize, pfnOffset, blocks) != []
  {
    PagesSorted(pageSize, pfnOffset, blocks);
  }
}
