/** Page descriptors and page data: the data caches and write_dump_pages (qemu/dump.c). */
module KdumpData {
  import opened Common
  import opened Arithmetic
  import opened KdumpFile
  import opened KdumpPages
  import opened KdumpBitmap

  /** The compression format of a dump: its flag, and a library that can fail but, when it
      succeeds, is undone by decompression. */
  datatype Codec = Codec(flag: nat, compress: seq<byte> -> Option<seq<byte>>, decompress: seq<byte> -> seq<byte>) {
    ghost predicate Valid() {
      && 0 < flag < Pow256(4)
      && forall x :: compress(x).Some? ==> decompress(compress(x).value) == x
    }
  }

  /** `stream` was put in a cache that started at `base`: its first part is in the file, the rest in the buffer. */
  ghost predicate CacheState(out: File, base: nat, offset: nat, pending: seq<byte>, stream: seq<byte>) {
    && base <= offset && |stream| == offset - base + |pending|
    && Holds(out, base, stream[..offset - base]) && pending == stream[offset - base..]
  }

  lemma FlushCache(out: File, base: nat, offset: nat, pending: seq<byte>, stream: seq<byte>)
    requires CacheState(out, base, offset, pending, stream)
    ensures CacheState(Write(out, offset, pending), base, offset + |pending|, [], stream)
    ensures SameOutside(out, Write(out, offset, pending), base, base + |stream|)
  {
    hide Write;
    var out' := Write(out, offset, pending);
    forall p: nat | base <= p < base + |stream|
      ensures p in out' && out'[p] == stream[p - base]
    {
      WriteAt(out, offset, pending, p);
    }
    assert stream[..offset + |pending| - base] == stream;
    forall p: nat | !(base <= p < base + |stream|)
      ensures (p in out' <==> p in out) && (p in out ==> out'[p] == out[p])
    {
      WriteAt(out, offset, pending, p);
    }
  }

  lemma AppendCache(out: File, base: nat, offset: nat, pending: seq<byte>, stream: seq<byte>, data: seq<byte>)
    requires CacheState(out, base, offset, pending, stream)
    ensures CacheState(out, base, offset, pending + data, stream + data)
  {
    assert (stream + data)[..offset - base] == stream[..offset - base];
  }

  /** Writes elsewhere do not disturb a cache. */
  lemma CacheKept(out: File, out': File, lo: nat, hi: nat, base: nat, offset: nat, pending: seq<byte>,
                  stream: seq<byte>)
    requires CacheState(out, base, offset, pending, stream) && SameOutside(out, out', lo, hi)
    requires hi <= base || base + |stream| <= lo
    ensures CacheState(out', base, offset, pending, stream)
  {
  }

  /** At most `n` writes were made, and there is no failure while as many are left. */
  ghost predicate Spent(n: nat, ok: bool, before: nat, after: nat) {
    (n <= before ==> ok) && (ok ==> before <= after + n)
  }

  class DataCache {
    const fd: DumpFd
    const buf: array<byte>
    var dataSize: nat
    var offset: nat
    ghost const base: nat
    ghost var stream: seq<byte>

    ghost predicate Valid()
      reads this, buf, fd
    {
      dataSize <= buf.Length && CacheState(fd.out, base, offset, buf[..dataSize], stream)
    }

    /** prepare_data_cache */
    constructor (fd: DumpFd, bufSize: nat, offset: nat)
      ensures this.fd == fd && fresh(buf) && buf.Length == bufSize && base == offset && stream == [] && Valid()
    {
      this.fd := fd;
      buf := new byte[bufSize];
      dataSize := 0;
      this.offset := offset;
      base := offset;
      stream := [];
    }

    /** write_cache */
    method WriteCache(data: seq<byte>, sync: bool) returns (ok: bool)
      requires Valid() && |data| <= buf.Length
      modifies this, buf, fd
      ensures ok ==> Valid() && stream == old(stream) + (if sync then [] else data)
      ensures ok && sync ==> dataSize == 0
      ensures ok ==> SameOutside(old(fd.out), fd.out, base, base + |old(stream)|)
      ensures Spent(1, ok, old(fd.writesLeft), fd.writesLeft)
    {
      hide CacheState, SameOutside, Write;
      SameOutsideSelf(fd.out, base, base + |stream|);
      ok := true;
      if (!sync && dataSize + |data| > buf.Length) || (sync && dataSize > 0) {
        FlushCache(fd.out, base, offset, buf[..dataSize], stream);
        ok := fd.WriteBuffer(offset, buf[..dataSize]);
        if !ok {
          return;
        }
        offset := offset + dataSize;
        dataSize := 0;
        assert buf[..0] == [];
      }
      if !sync {
        AppendCache(fd.out, base, offset, buf[..dataSize], stream, data);
        CopyIn(data);
        dataSize := dataSize + |data|;
        stream := stream + data;
      } else {
        assert stream + [] == stream;
      }
    }

    /** memcpy(dc->buf + dc->data_size, buf, size) */
    method CopyIn(data: seq<byte>)
      requires dataSize + |data| <= buf.Length
      modifies buf
      ensures buf[..dataSize + |data|] == old(buf[..dataSize]) + data
    {
      for i := 0 to |data|
        invariant buf[..dataSize + i] == old(buf[..dataSize]) + data[..i]
      {
        buf[dataSize + i] := data[i];
        assert buf[..dataSize + i + 1] == buf[..dataSize + i] + [data[i]];
      }
    }
  }

  datatype PageDescriptor = PageDescriptor(offset: nat, size: nat, flags: nat, pageFlags: nat)

  /** The 24 bytes of a PageDescriptor. */
  function EncodeDesc(bigEndian: bool, pd: PageDescriptor): (s: seq<byte>)
    ensures |s| == 24
  {
    Encode(bigEndian, pd.offset, 8) + Encode(bigEndian, pd.size, 4) + Encode(bigEndian, pd.flags, 4)
    + Encode(bigEndian, pd.pageFlags, 8)
  }

  function DecodeDesc(bigEndian: bool, s: seq<byte>): PageDescriptor
    requires |s| == 24
  {
    PageDescriptor(Decode(bigEndian, s[..8]), Decode(bigEndian, s[8..12]), Decode(bigEndian, s[12..16]),
                   Decode(bigEndian, s[16..]))
  }

  ghost predicate DescFits(pd: PageDescriptor) {
    pd.offset < Pow256(8) && pd.size < Pow256(4) && pd.flags < Pow256(4) && pd.pageFlags < Pow256(8)
  }

  /** Where the fields of a descriptor are: offset, size, flags and page flags, in 8, 4, 4 and 8 bytes. */
  lemma DescFields(bigEndian: bool, pd: PageDescriptor)
    requires DescFits(pd)
    ensures var s := EncodeDesc(bigEndian, pd);
            && Decode(bigEndian, s[..8]) == pd.offset && Decode(bigEndian, s[8..12]) == pd.size
            && Decode(bigEndian, s[12..16]) == pd.flags && Decode(bigEndian, s[16..]) == pd.pageFlags
  {
    hide Encode, Decode, Pow256;
    var s := EncodeDesc(bigEndian, pd);
    assert s[..8] == Encode(bigEndian, pd.offset, 8);
    assert s[8..12] == Encode(bigEndian, pd.size, 4);
    assert s[12..16] == Encode(bigEndian, pd.flags, 4);
    assert s[16..] == Encode(bigEndian, pd.pageFlags, 8);
    EncodeDecodes(bigEndian, pd.offset, 8);
    EncodeDecodes(bigEndian, pd.size, 4);
    EncodeDecodes(bigEndian, pd.flags, 4);
    EncodeDecodes(bigEndian, pd.pageFlags, 8);
  }

  lemma DescDecodes(bigEndian: bool, pd: PageDescriptor)
    requires DescFits(pd)
    ensures DecodeDesc(bigEndian, EncodeDesc(bigEndian, pd)) == pd
  {
    hide Decode, EncodeDesc, DescFits;
    DescFields(bigEndian, pd);
  }

  ghost function EncodeAll(bigEndian: bool, descs: seq<PageDescriptor>): (s: seq<byte>)
    ensures |s| == 24 * |descs|
  {
    if descs == [] then []
    else EncodeAll(bigEndian, descs[..|descs| - 1]) + EncodeDesc(bigEndian, descs[|descs| - 1])
  }

  /** Descriptor number `r` is at 24 * r. */
  lemma {:induction false} DescAt(bigEndian: bool, descs: seq<PageDescriptor>, r: nat)
    requires r < |descs|
    ensures EncodeAll(bigEndian, descs)[24 * r..24 * r + 24] == EncodeDesc(bigEndian, descs[r])
  {
    hide EncodeDesc;
    var n := |descs| - 1;
    var a, b := EncodeAll(bigEndian, descs[..n]), EncodeDesc(bigEndian, descs[n]);
    var lo := 24 * r;
    assert EncodeAll(bigEndian, descs) == a + b;
    if r < n {
      DescAt(bigEndian, descs[..n], r);
      assert (a + b)[lo..lo + 24] == a[lo..lo + 24];
    } else {
      assert (a + b)[lo..lo + 24] == b;
    }
  }

  predicate IsZero(page: seq<byte>) { forall i :: 0 <= i < |page| ==> page[i] == 0 }

  /** Decoding the bytes that a descriptor points at. */
  function PageFrom(codec: Codec, flags: nat, bytes: seq<byte>): seq<byte> {
    if flags == 0 then bytes else codec.decompress(bytes)
  }

  /** Descriptor `pd` points into the data stream at what decodes to `page`; zero pages share the first copy, and
      other pages are compressed if that makes them smaller. */
  ghost predicate Stored(codec: Codec, base: nat, stream: seq<byte>, size: nat, pd: PageDescriptor, page: seq<byte>) {
    && base <= pd.offset && pd.offset + pd.size <= base + |stream| && pd.size <= size
    && (pd.flags == 0 || pd.flags == codec.flag) && pd.pageFlags == 0
    && PageFrom(codec, pd.flags, stream[pd.offset - base..pd.offset - base + pd.size]) == page
    && (IsZero(page) <==> pd.offset == base)
    && (!IsZero(page) && Shrinks(codec, page) ==> pd.flags == codec.flag && pd.size == |codec.compress(page).value|)
    && (!IsZero(page) && !Shrinks(codec, page) ==> pd.flags == 0 && pd.size == |page|)
  }

  /** Compression works on the page and makes it smaller. */
  predicate Shrinks(codec: Codec, page: seq<byte>) {
    codec.compress(page).Some? && |codec.compress(page).value| < |page|
  }

  lemma StoredKept(codec: Codec, base: nat, stream: seq<byte>, more: seq<byte>, size: nat, pd: PageDescriptor,
                   page: seq<byte>)
    requires Stored(codec, base, stream, size, pd, page)
    ensures Stored(codec, base, stream + more, size, pd, page)
  {
    var o := pd.offset - base;
    assert (stream + more)[o..o + pd.size] == stream[o..o + pd.size];
  }

  /** The bytes and flags that a non-zero page is stored with. */
  function Stow(codec: Codec, page: seq<byte>): (seq<byte>, nat) {
    var c := codec.compress(page);
    if c.Some? && |c.value| < |page| then (c.value, codec.flag) else (page, 0)
  }

  /** The first `|descs|` pages are stored in the data stream that starts at `base`. */
  ghost predicate PagesStored(codec: Codec, base: nat, stream: seq<byte>, size: nat, descs: seq<PageDescriptor>,
                              ps: seq<PageRec>) {
    && |descs| <= |ps| && size <= |stream| <= size * (|descs| + 1)
    && stream[..size] == Zeros(size)
    && forall i :: 0 <= i < |descs| ==> Stored(codec, base, stream, size, descs[i], ps[i].data)
  }

  lemma StowZero(codec: Codec, base: nat, stream: seq<byte>, size: nat, descs: seq<PageDescriptor>, ps: seq<PageRec>)
    requires PagesStored(codec, base, stream, size, descs, ps) && |descs| < |ps|
    requires |ps[|descs|].data| == size && IsZero(ps[|descs|].data)
    ensures PagesStored(codec, base, stream, size, descs + [PageDescriptor(base, size, 0, 0)], ps)
  {
    var page := ps[|descs|].data;
    assert stream[0..size] == stream[..size];
    assert page == Zeros(size);
    Grow(size, |descs| + 1);
  }

  lemma Grow(size: nat, n: nat)
    ensures size * n <= size * (n + 1) && size * (n + 1) == size * n + size
  {
  }

  lemma StowPage(codec: Codec, base: nat, stream: seq<byte>, size: nat, descs: seq<PageDescriptor>, ps: seq<PageRec>)
    requires codec.Valid() && 0 < size && PagesStored(codec, base, stream, size, descs, ps) && |descs| < |ps|
    requires |ps[|descs|].data| == size && !IsZero(ps[|descs|].data)
    ensures var (bytes, flags) := Stow(codec, ps[|descs|].data);
            && |bytes| <= size
            && PagesStored(codec, base, stream + bytes, size,
                           descs + [PageDescriptor(base + |stream|, |bytes|, flags, 0)], ps)
  {
    var page := ps[|descs|].data;
    var (bytes, flags) := Stow(codec, page);
    var pd := PageDescriptor(base + |stream|, |bytes|, flags, 0);
    var descs' := descs + [pd];
    assert (stream + bytes)[|stream|..|stream| + |bytes|] == bytes;
    assert Stored(codec, base, stream + bytes, size, pd, page);
    forall i | 0 <= i < |descs'|
      ensures Stored(codec, base, stream + bytes, size, descs'[i], ps[i].data)
    {
      if i < |descs| {
        StoredKept(codec, base, stream, bytes, size, descs[i], ps[i].data);
      }
    }
    assert (stream + bytes)[..size] == stream[..size];
    Grow(size, |descs| + 1);
  }

  lemma StartStored(codec: Codec, base: nat, size: nat, ps: seq<PageRec>)
    ensures PagesStored(codec, base, Zeros(size), size, [], ps)
  {
  }

  lemma EncodeAllNext(bigEndian: bool, descs: seq<PageDescriptor>, pd: PageDescriptor)
    ensures EncodeAll(bigEndian, descs + [pd]) == EncodeAll(bigEndian, descs) + EncodeDesc(bigEndian, pd)
  {
    assert (descs + [pd])[..|descs|] == descs;
  }

  method IsZeroPage(page: seq<byte>) returns (z: bool)
    ensures z <==> IsZero(page)
  {
    var i := 0;
    while i < |page|
      invariant 0 <= i <= |page| && IsZero(page[..i])
    {
      if page[i] != 0 {
        return false;
      }
      i := i + 1;
    }
    assert page[..i] == page;
    return true;
  }

  /** The two caches of write_dump_pages, with descriptors before data in the file. */
  ghost predicate CachesOk(fd: DumpFd, desc: DataCache, data: DataCache, pageSize: nat, n: nat)
    reads desc, desc.buf, data, data.buf, fd
  {
    && desc != data && desc.buf != data.buf && desc.fd == data.fd == fd
    && desc.Valid() && data.Valid()
    && desc.buf.Length == data.buf.Length == 4 * pageSize
    && data.base == desc.base + 24 * n && |desc.stream| <= 24 * n
  }

  /** Appending to one cache leaves the other valid, as the two write to different parts of the file. */
  method PutDesc(fd: DumpFd, desc: DataCache, data: DataCache, pageSize: nat, n: nat, bytes: seq<byte>,
                 ghost out0: File)
    returns (ok: bool)
    requires CachesOk(fd, desc, data, pageSize, n) && |bytes| <= 4 * pageSize && |desc.stream| + |bytes| <= 24 * n
    requires SameOutside(out0, fd.out, desc.base, data.base + |data.stream|)
    modifies desc, desc.buf, fd
    ensures ok ==> CachesOk(fd, desc, data, pageSize, n) && desc.stream == old(desc.stream) + bytes
    ensures ok ==> SameOutside(out0, fd.out, desc.base, data.base + |data.stream|)
    ensures Spent(1, ok, old(fd.writesLeft), fd.writesLeft)
  {
    hide CacheState;
    ghost var out1 := fd.out;
    ok := desc.WriteCache(bytes, false);
    if ok {
      CacheKept(out1, fd.out, desc.base, desc.base + |old(desc.stream)|, data.base, data.offset,
                data.buf[..data.dataSize], data.stream);
    }
  }

  method PutData(fd: DumpFd, desc: DataCache, data: DataCache, pageSize: nat, n: nat, bytes: seq<byte>,
                 ghost out0: File)
    returns (ok: bool)
    requires CachesOk(fd, desc, data, pageSize, n) && |bytes| <= 4 * pageSize
    requires SameOutside(out0, fd.out, desc.base, data.base + |data.stream|)
    modifies data, data.buf, fd
    ensures ok ==> CachesOk(fd, desc, data, pageSize, n) && data.stream == old(data.stream) + bytes
    ensures ok ==> SameOutside(out0, fd.out, desc.base, data.base + |data.stream|)
    ensures Spent(1, ok, old(fd.writesLeft), fd.writesLeft)
  {
    hide CacheState;
    ghost var out1 := fd.out;
    ok := data.WriteCache(bytes, false);
    if ok {
      CacheKept(out1, fd.out, data.base, data.base + |old(data.stream)|, desc.base, desc.offset,
                desc.buf[..desc.dataSize], desc.stream);
    }
  }

  /** The loop body of write_dump_pages: page number `|descs|` is stored and described. */
  method WritePage(fd: DumpFd, desc: DataCache, data: DataCache, pageSize: nat, n: nat, codec: Codec, bigEndian: bool,
                   page: seq<byte>, offsetZero: nat, offsetData: nat, ghost descs: seq<PageDescriptor>,
                   ghost ps: seq<PageRec>, ghost out0: File)
    returns (ok: bool, offsetData': nat, ghost descs': seq<PageDescriptor>)
    requires codec.Valid() && CachesOk(fd, desc, data, pageSize, n) && 24 <= 4 * pageSize
    requires |descs| < |ps| == n && ps[|descs|].data == page && |page| == pageSize
    requires PagesStored(codec, data.base, data.stream, pageSize, descs, ps)
    requires desc.stream == EncodeAll(bigEndian, descs) && offsetZero == data.base
    requires offsetData == data.base + |data.stream|
    requires SameOutside(out0, fd.out, desc.base, data.base + |data.stream|)
    modifies desc, desc.buf, data, data.buf, fd
    ensures ok ==> CachesOk(fd, desc, data, pageSize, n) && |descs'| == |descs| + 1
    ensures ok ==> PagesStored(codec, data.base, data.stream, pageSize, descs', ps)
    ensures ok ==> desc.stream == EncodeAll(bigEndian, descs') && offsetData' == data.base + |data.stream|
    ensures ok ==> SameOutside(out0, fd.out, desc.base, data.base + |data.stream|)
    ensures Spent(2, ok, old(fd.writesLeft), fd.writesLeft)
  {
    hide CachesOk, PagesStored, SameOutside, EncodeAll, EncodeDesc;
    CachesFacts(fd, desc, data, pageSize, n);
    offsetData', descs' := offsetData, descs;
    var zero := IsZeroPage(page);
    var pd;
    if zero {
      pd := PageDescriptor(offsetZero, pageSize, 0, 0);
      StowZero(codec, data.base, data.stream, pageSize, descs, ps);
    } else {
      var (bytes, flags) := Stow(codec, page);
      StowPage(codec, data.base, data.stream, pageSize, descs, ps);
      ok := PutData(fd, desc, data, pageSize, n, bytes, out0);
      if !ok {
        return;
      }
      pd := PageDescriptor(offsetData, |bytes|, flags, 0);
      offsetData' := offsetData + |bytes|;
    }
    EncodeAllNext(bigEndian, descs, pd);
    descs' := descs + [pd];
    ok := PutDesc(fd, desc, data, pageSize, n, EncodeDesc(bigEndian, pd), out0);
  }

  lemma CachesFacts(fd: DumpFd, desc: DataCache, data: DataCache, pageSize: nat, n: nat)
    requires CachesOk(fd, desc, data, pageSize, n)
    ensures desc != data && desc.buf != data.buf && desc.fd == data.fd == fd
    ensures data.base == desc.base + 24 * n
  {
  }

  /** Everything is in the file: descriptors from `base` on, then the data they point at. */
  ghost predicate PagesWritten(out: File, codec: Codec, bigEndian: bool, base: nat, size: nat, ps: seq<PageRec>,
                               descs: seq<PageDescriptor>, stream: seq<byte>)
  {
    && |descs| == |ps|
    && Holds(out, base, EncodeAll(bigEndian, descs))
    && Holds(out, base + 24 * |ps|, stream)
    && PagesStored(codec, base + 24 * |ps|, stream, size, descs, ps)
  }

  lemma StartCaches(fd: DumpFd, desc: DataCache, data: DataCache, pageSize: nat, n: nat)
    requires desc != data && desc.buf != data.buf && desc.fd == data.fd == fd && desc.Valid() && data.Valid()
    requires desc.buf.Length == data.buf.Length == 4 * pageSize
    requires data.base == desc.base + 24 * n && desc.stream == []
    ensures CachesOk(fd, desc, data, pageSize, n)
    ensures EncodeAll(false, []) == EncodeAll(true, []) == []
  {
  }

  /** write_dump_pages */
  method WriteDumpPages(fd: DumpFd, pageSize: nat, pfnOffset: nat, blocks: seq<Block>, codec: Codec, bigEndian: bool,
                        offsetPage: nat, numDumpable: nat)
    returns (ok: bool, ghost descs: seq<PageDescriptor>, ghost stream: seq<byte>)
    requires BlocksOk(pageSize, pfnOffset, blocks) && blocks != [] && codec.Valid() && 24 <= 4 * pageSize
    requires numDumpable == |Pages(pageSize, pfnOffset, blocks)|
    modifies fd
    ensures ok ==> PagesWritten(fd.out, codec, bigEndian, offsetPage, pageSize, Pages(pageSize, pfnOffset, blocks),
                                descs, stream)
    ensures ok ==> SameOutside(old(fd.out), fd.out, offsetPage, offsetPage + 24 * numDumpable + |stream|)
    ensures Spent(2 * numDumpable + 3, ok, old(fd.writesLeft), fd.writesLeft)
  {
    hide CachesOk, PagesStored, SameOutside, EncodeAll, Pages, BlocksOk, PagesWritten, Codec.Valid, CacheState,
         DataCache.Valid;
    ghost var ps := Pages(pageSize, pfnOffset, blocks);
    ghost var out0 := fd.out;
    var offsetZero := offsetPage + 24 * numDumpable;
    descs, stream := [], [];
    var desc, data;
    ok, desc, data := PrepareCaches(fd, pageSize, offsetPage, numDumpable, codec, bigEndian, ps);
    if !ok {
      return;
    }
    ok, descs := WriteEachPage(fd, desc, data, pageSize, pfnOffset, blocks, codec, bigEndian, numDumpable,
                               offsetZero, offsetZero + pageSize, out0);
    if !ok {
      return;
    }
    stream := data.stream;
    CachesFacts(fd, desc, data, pageSize, numDumpable);
    ok := SyncCaches(fd, desc, data, pageSize, numDumpable, codec, bigEndian, descs, ps, out0);
  }

  /** The head of write_dump_pages: both caches, with the one copy of the zero page. */
  method PrepareCaches(fd: DumpFd, pageSize: nat, offsetPage: nat, numDumpable: nat, ghost codec: Codec,
                       bigEndian: bool, ghost ps: seq<PageRec>)
    returns (ok: bool, desc: DataCache, data: DataCache)
    modifies fd
    ensures fresh(desc) && fresh(data) && fresh(desc.buf) && fresh(data.buf)
    ensures desc.base == offsetPage && data.base == offsetPage + 24 * numDumpable
    ensures ok ==> CachesOk(fd, desc, data, pageSize, numDumpable) && |data.stream| == pageSize
    ensures ok ==>
              desc.stream == EncodeAll(bigEndian, []) && PagesStored(codec, data.base, data.stream, pageSize, [], ps)
    ensures ok ==> SameOutside(old(fd.out), fd.out, desc.base, data.base + |data.stream|)
    ensures Spent(1, ok, old(fd.writesLeft), fd.writesLeft)
  {
    hide CachesOk, PagesStored, SameOutside, EncodeAll, CacheState, DataCache.Valid, Zeros;
    ghost var out0 := fd.out;
    desc := new DataCache(fd, 4 * pageSize, offsetPage);
    data := new DataCache(fd, 4 * pageSize, offsetPage + 24 * numDumpable);
    StartCaches(fd, desc, data, pageSize, numDumpable);
    SameOutsideSelf(out0, desc.base, data.base);
    ZerosSize(pageSize);
    ok := PutData(fd, desc, data, pageSize, numDumpable, Zeros(pageSize), out0);
    StartStored(codec, data.base, pageSize, ps);
  }

  /** The loop of write_dump_pages. */
  method WriteEachPage(fd: DumpFd, desc: DataCache, data: DataCache, pageSize: nat, pfnOffset: nat, blocks: seq<Block>,
                       codec: Codec, bigEndian: bool, numDumpable: nat, offsetZero: nat, offsetData: nat,
                       ghost out0: File)
    returns (ok: bool, ghost descs: seq<PageDescriptor>)
    requires BlocksOk(pageSize, pfnOffset, blocks) && blocks != [] && codec.Valid() && 24 <= 4 * pageSize
    requires numDumpable == |Pages(pageSize, pfnOffset, blocks)|
    requires CachesOk(fd, desc, data, pageSize, numDumpable)
    requires PagesStored(codec, data.base, data.stream, pageSize, [], Pages(pageSize, pfnOffset, blocks))
    requires desc.stream == EncodeAll(bigEndian, []) && offsetZero == data.base
    requires offsetData == data.base + |data.stream|
    requires SameOutside(out0, fd.out, desc.base, data.base + |data.stream|)
    modifies desc, desc.buf, data, data.buf, fd
    ensures ok ==> CachesOk(fd, desc, data, pageSize, numDumpable) && |descs| == numDumpable
    ensures ok ==> PagesStored(codec, data.base, data.stream, pageSize, descs, Pages(pageSize, pfnOffset, blocks))
    ensures ok ==> desc.stream == EncodeAll(bigEndian, descs)
    ensures ok ==> SameOutside(out0, fd.out, desc.base, data.base + |data.stream|)
    ensures Spent(2 * numDumpable, ok, old(fd.writesLeft), fd.writesLeft)
  {
    hide CachesOk, PagesStored, SameOutside, EncodeAll, Pages, AtPage, BlocksOk;
    ghost var ps := Pages(pageSize, pfnOffset, blocks);
    PageLengths(pageSize, pfnOffset, blocks);
    var pfn, iter, offset := 0, Before, offsetData;
    ghost var k := 0;
    ok, descs := true, [];
    while true
      invariant 0 <= k <= |ps| && |descs| == k && ok
      invariant k == 0 ==> iter.Before?
      invariant k > 0 ==> iter.On? && AtPage(pageSize, pfnOffset, blocks, iter.block, pfn, k - 1)
      invariant CachesOk(fd, desc, data, pageSize, numDumpable)
      invariant PagesStored(codec, data.base, data.stream, pageSize, descs, ps)
      invariant desc.stream == EncodeAll(bigEndian, descs) && offset == data.base + |data.stream|
      invariant SameOutside(out0, fd.out, desc.base, data.base + |data.stream|)
      invariant old(fd.writesLeft) <= fd.writesLeft + 2 * k
      decreases |ps| - k
    {
      var more, page;
      more, iter, pfn, page := GetNextPage(pageSize, pfnOffset, blocks, iter, pfn, k - 1);
      if !more {
        break;
      }
      ok, offset, descs := WritePage(fd, desc, data, pageSize, numDumpable, codec, bigEndian, page, offsetZero,
                                     offset, descs, ps, out0);
      if !ok {
        return;
      }
      k := k + 1;
    }
  }

  lemma ZerosSize(n: nat)
    ensures |Zeros(n)| == n && [] + Zeros(n) == Zeros(n)
  {
  }

  lemma PageLengths(pageSize: nat, pfnOffset: nat, blocks: seq<Block>)
    requires BlocksOk(pageSize, pfnOffset, blocks)
    ensures 0 < pageSize
    ensures forall k :: 0 <= k < |Pages(pageSize, pfnOffset, blocks)| ==>
              |Pages(pageSize, pfnOffset, blocks)[k].data| == pageSize
  {
    PagesSorted(pageSize, pfnOffset, blocks);
  }

  lemma SyncedHolds(out: File, base: nat, offset: nat, stream: seq<byte>)
    requires CacheState(out, base, offset, [], stream)
    ensures Holds(out, base, stream)
  {
    assert stream[..offset - base] == stream;
  }

  lemma HoldsKept(out: File, out': File, lo: nat, hi: nat, base: nat, data: seq<byte>)
    requires Holds(out, base, data) && SameOutside(out, out', lo, hi) && base + |data| <= lo
    ensures Holds(out', base, data)
  {
  }

  /** The two final synchronisations of write_dump_pages. */
  method SyncCaches(fd: DumpFd, desc: DataCache, data: DataCache, pageSize: nat, n: nat, codec: Codec, bigEndian: bool,
                    ghost descs: seq<PageDescriptor>, ghost ps: seq<PageRec>, ghost out0: File)
    returns (ok: bool)
    requires CachesOk(fd, desc, data, pageSize, n) && |descs| == |ps| == n
    requires PagesStored(codec, data.base, data.stream, pageSize, descs, ps)
    requires desc.stream == EncodeAll(bigEndian, descs)
    requires SameOutside(out0, fd.out, desc.base, data.base + |data.stream|)
    modifies desc, desc.buf, data, data.buf, fd
    ensures ok ==> PagesWritten(fd.out, codec, bigEndian, desc.base, pageSize, ps, descs, old(data.stream))
    ensures ok ==> SameOutside(out0, fd.out, desc.base, data.base + |old(data.stream)|)
    ensures Spent(2, ok, old(fd.writesLeft), fd.writesLeft)
  {
    hide PagesStored, CacheState, Holds, SameOutside, EncodeAll;
    ghost var out1, dstream := fd.out, data.stream;
    ghost var end := data.base + |dstream|;
    ok := desc.WriteCache([], true);
    if !ok {
      return;
    }
    ghost var out2 := fd.out;
    assert desc.buf[..0] == [] && desc.stream == EncodeAll(bigEndian, descs);
    SyncedHolds(out2, desc.base, desc.offset, desc.stream);
    CacheKept(out1, out2, desc.base, desc.base + |desc.stream|, data.base, data.offset, data.buf[..data.dataSize],
              data.stream);
    SameOutsideWider(out1, out2, desc.base, desc.base + |desc.stream|, desc.base, end);
    SameOutsideThen(out0, out1, out2, desc.base, end);
    ok := data.WriteCache([], true);
    if !ok {
      return;
    }
    assert data.buf[..0] == [] && data.stream == dstream;
    SyncedHolds(fd.out, data.base, data.offset, data.stream);
    HoldsKept(out2, fd.out, data.base, end, desc.base, desc.stream);
    SameOutsideWider(out2, fd.out, data.base, end, desc.base, end);
    SameOutsideThen(out0, out2, fd.out, desc.base, end);
  }
}
