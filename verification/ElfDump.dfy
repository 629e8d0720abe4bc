/** The memory part of an ELF dump and the offsets that its program headers give (qemu/dump.c).
    Addresses and sizes are taken not to overflow 64 bits. */
module ElfDump {
  import opened Common

  /** A GuestPhysBlock: the guest memory in [start, end). */
  datatype Block = Block(start: nat, end: nat)

  datatype Filter = Filter(begin: nat, length: nat)

  type Memory = nat -> byte

  ghost predicate BlocksOk(blocks: seq<Block>) {
    forall i :: 0 <= i < |blocks| ==> blocks[i].start <= blocks[i].end
  }

  predicate OutOfRange(b: Block, f: Option<Filter>) {
    f.Some? && (b.start >= f.value.begin + f.value.length || b.end <= f.value.begin)
  }

  /** The part [Low, High) of a block that is dumped. */
  function Low(b: Block, f: Option<Filter>): nat {
    if f.Some? && b.start < f.value.begin then f.value.begin else b.start
  }

  function High(b: Block, f: Option<Filter>): nat {
    if f.Some? && f.value.begin + f.value.length < b.end then f.value.begin + f.value.length else b.end
  }

  function Size(b: Block, f: Option<Filter>): nat {
    if OutOfRange(b, f) || High(b, f) < Low(b, f) then 0 else High(b, f) - Low(b, f)
  }

  function Slice(mem: Memory, from: nat, n: nat): (s: seq<byte>)
    ensures |s| == n && forall k :: 0 <= k < n ==> s[k] == mem(from + k)
  {
    seq(n, k requires 0 <= k < n => mem(from + k))
  }

  /** The dumped memory of the blocks, one after the other. */
  function Content(blocks: seq<Block>, f: Option<Filter>, mem: Memory): seq<byte> {
    if blocks == [] then []
    else Content(blocks[..|blocks| - 1], f, mem) + Slice(mem, Low(blocks[|blocks| - 1], f),
                                                         Size(blocks[|blocks| - 1], f))
  }

  lemma ContentStep(blocks: seq<Block>, f: Option<Filter>, mem: Memory, i: nat)
    requires i < |blocks|
    ensures Content(blocks[..i + 1], f, mem) == Content(blocks[..i], f, mem)
            + Slice(mem, Low(blocks[i], f), Size(blocks[i], f))
  {
    assert blocks[..i + 1][..i] == blocks[..i];
  }

  /** What later blocks add does not move what earlier ones put. */
  lemma {:induction false} ContentPrefix(blocks: seq<Block>, f: Option<Filter>, mem: Memory, i: nat)
    requires i <= |blocks|
    ensures Content(blocks[..i], f, mem) <= Content(blocks, f, mem)
    decreases |blocks| - i
  {
    if i < |blocks| {
      ContentStep(blocks, f, mem, i);
      ContentPrefix(blocks, f, mem, i + 1);
    } else {
      assert blocks[..i] == blocks;
    }
  }

  lemma SliceSplit(mem: Memory, from: nat, m: nat, n: nat)
    ensures Slice(mem, from, m) + Slice(mem, from + m, n) == Slice(mem, from, m + n)
  {
    var a, b := Slice(mem, from, m) + Slice(mem, from + m, n), Slice(mem, from, m + n);
    forall k | 0 <= k < m + n ensures a[k] == b[k] {
      if k >= m {
        assert a[k] == Slice(mem, from + m, n)[k - m];
      }
    }
  }

  /** The bytes at [at, at + n) are the guest's from `a` on. */
  ghost predicate Agrees(content: seq<byte>, at: nat, n: nat, mem: Memory, a: nat) {
    at + n <= |content| && content[at..at + n] == Slice(mem, a, n)
  }

  lemma NoBlocks(f: Option<Filter>, mem: Memory)
    ensures Content([], f, mem) == []
  {
  }

  lemma ContentLength(blocks: seq<Block>, f: Option<Filter>, mem: Memory, i: nat)
    requires i < |blocks|
    ensures |Content(blocks[..i + 1], f, mem)| == |Content(blocks[..i], f, mem)| + Size(blocks[i], f)
  {
    ContentStep(blocks, f, mem, i);
  }

  /** A piece of a block, where the content holds it. */
  lemma ContentHolds(blocks: seq<Block>, f: Option<Filter>, mem: Memory, i: nat, skip: nat, n: nat)
    requires i < |blocks| && skip + n <= Size(blocks[i], f)
    ensures var at := |Content(blocks[..i], f, mem)| + skip;
            Agrees(Content(blocks, f, mem), at, n, mem, Low(blocks[i], f) + skip)
  {
    hide Content, Low, Size;
    var whole, before := Content(blocks, f, mem), Content(blocks[..i], f, mem);
    var piece := Slice(mem, Low(blocks[i], f), Size(blocks[i], f));
    ContentStep(blocks, f, mem, i);
    ContentPrefix(blocks, f, mem, i + 1);
    PrefixSlice(before, piece, whole, skip, n);
    SliceSlice(mem, Low(blocks[i], f), Size(blocks[i], f), skip, n);
  }

  lemma PrefixSlice(a: seq<byte>, b: seq<byte>, whole: seq<byte>, skip: nat, n: nat)
    requires a + b <= whole && skip + n <= |b|
    ensures whole[|a| + skip..|a| + skip + n] == b[skip..skip + n]
  {
    assert whole[..|a| + |b|] == a + b;
    assert whole[|a| + skip..|a| + skip + n] == (a + b)[|a| + skip..|a| + skip + n];
  }

  lemma SliceSlice(mem: Memory, from: nat, size: nat, skip: nat, n: nat)
    requires skip + n <= size
    ensures Slice(mem, from, size)[skip..skip + n] == Slice(mem, from + skip, n)
  {
    var a, b := Slice(mem, from, size)[skip..skip + n], Slice(mem, from + skip, n);
    forall k | 0 <= k < n ensures a[k] == b[k] {
      assert a[k] == mem(from + (skip + k));
    }
  }

  /** Address `a` is dumped: the block has it and the filter, if there is one, lets it through. */
  predicate Dumped(b: Block, f: Option<Filter>, a: nat) {
    b.start <= a < b.end && (f.Some? ==> f.value.begin <= a < f.value.begin + f.value.length)
  }

  /** The part of a mapping from `a` on that is in the file: as much of it as the block dumps. */
  ghost predicate Clamped(b: Block, f: Option<Filter>, a: nat, mappingLength: nat, filesz: nat) {
    && filesz <= mappingLength && (forall x: nat :: a <= x < a + filesz ==> Dumped(b, f, x))
    && (filesz < mappingLength ==> !Dumped(b, f, a + filesz))
  }

  // What is dumped, address by address.

  /** The addresses of [start, end) that the filter lets through, in order. */
  ghost function Selected(start: nat, end: nat, f: Option<Filter>): seq<nat>
    decreases end
  {
    if end <= start then []
    else
      Selected(start, end - 1, f)
      + if f.Some? && !(f.value.begin <= end - 1 < f.value.begin + f.value.length) then [] else [end - 1]
  }

  /** The addresses that are dumped: those of each block in turn. */
  ghost function Addresses(blocks: seq<Block>, f: Option<Filter>): seq<nat> {
    if blocks == [] then []
    else
      var n := |blocks| - 1;
      Addresses(blocks[..n], f) + Selected(blocks[n].start, blocks[n].end, f)
  }

  ghost predicate BytesOf(s: seq<byte>, mem: Memory, addrs: seq<nat>) {
    |s| == |addrs| && forall k :: 0 <= k < |s| ==> s[k] == mem(addrs[k])
  }

  /** The addresses selected are consecutive. */
  lemma {:induction false} SelectedIs(start: nat, end: nat, f: Option<Filter>, k: nat)
    ensures |Selected(start, end, f)| == Size(Block(start, end), f)
    ensures k < |Selected(start, end, f)| ==> Selected(start, end, f)[k] == Low(Block(start, end), f) + k
    decreases end
  {
    if start < end {
      SelectedIs(start, end - 1, f, k);
      SizeGrows(start, end, f);
    }
  }

  lemma SizeGrows(start: nat, end: nat, f: Option<Filter>)
    requires start < end
    ensures var b, c := Block(start, end - 1), Block(start, end);
            if f.Some? && !(f.value.begin <= end - 1 < f.value.begin + f.value.length) then Size(c, f) == Size(b, f)
            else Size(c, f) == Size(b, f) + 1 && Low(c, f) + Size(b, f) == end - 1
  {
  }

  /** The dumped memory is that of the dumped addresses. */
  lemma {:induction false} ContentIs(blocks: seq<Block>, f: Option<Filter>, mem: Memory)
    ensures BytesOf(Content(blocks, f, mem), mem, Addresses(blocks, f))
  {
    if blocks != [] {
      var n := |blocks| - 1;
      var b := blocks[n];
      ContentIs(blocks[..n], f, mem);
      SelectedSlice(b, f, mem);
      hide Size, Low, Selected, Slice;
      BytesThen(Content(blocks[..n], f, mem), Slice(mem, Low(b, f), Size(b, f)), mem, Addresses(blocks[..n], f),
                Selected(b.start, b.end, f));
    }
  }

  lemma SelectedSlice(b: Block, f: Option<Filter>, mem: Memory)
    ensures BytesOf(Slice(mem, Low(b, f), Size(b, f)), mem, Selected(b.start, b.end, f))
  {
    SelectedIs(b.start, b.end, f, 0);
    assert Block(b.start, b.end) == b;
    forall k | 0 <= k < Size(b, f) ensures Selected(b.start, b.end, f)[k] == Low(b, f) + k {
      SelectedIs(b.start, b.end, f, k);
    }
  }

  lemma BytesThen(s: seq<byte>, t: seq<byte>, mem: Memory, a: seq<nat>, b: seq<nat>)
    requires BytesOf(s, mem, a) && BytesOf(t, mem, b)
    ensures BytesOf(s + t, mem, a + b)
  {
  }

  lemma ClampMeans(b: Block, f: Option<Filter>, a: nat, mappingLength: nat, filesz: nat)
    requires Dumped(b, f, a)
    requires filesz == if a + mappingLength <= High(b, f) then mappingLength else High(b, f) - a
    ensures Clamped(b, f, a, mappingLength, filesz)
  {
  }

  class DumpState {
    const blocks: seq<Block>
    const filter: Option<Filter>
    const pageSize: nat
    const memoryOffset: nat
    var next: nat
    var start: nat
    /** What was written from memoryOffset on. */
    var out: seq<byte>
    var writtenSize: nat

    ghost predicate Valid() {
      BlocksOk(blocks) && pageSize > 0
    }

    constructor (blocks: seq<Block>, filter: Option<Filter>, pageSize: nat, memoryOffset: nat)
      requires BlocksOk(blocks) && pageSize > 0
      ensures Valid() && out == [] && writtenSize == 0
      ensures this.blocks == blocks && this.filter == filter && this.pageSize == pageSize
      ensures this.memoryOffset == memoryOffset
    {
      this.blocks, this.filter, this.pageSize, this.memoryOffset := blocks, filter, pageSize, memoryOffset;
      next, start, out, writtenSize := 0, 0, [], 0;
    }

    /** get_offset_range. No offset stands for -1. */
    method GetOffsetRange(physAddr: nat, mappingLength: nat, ghost mem: Memory)
      returns (offset: Option<nat>, filesz: nat)
      requires Valid()
      ensures offset == None <==> forall b :: b in blocks ==> !Dumped(b, filter, physAddr)
      ensures offset == None ==> filesz == 0
      ensures offset.Some? ==>
                memoryOffset <= offset.value && Agrees(Content(blocks, filter, mem), offset.value - memoryOffset,
                                                       filesz, mem, physAddr)
      ensures offset.Some? ==>
                exists b :: b in blocks && Dumped(b, filter, physAddr)
                  && Clamped(b, filter, physAddr, mappingLength, filesz)
    {
      hide Content, Slice, Agrees, Clamped;
      offset, filesz := None, 0;
      var at := memoryOffset;
      if filter.Some? && (physAddr < filter.value.begin || physAddr >= filter.value.begin + filter.value.length) {
        return;
      }
      var i: nat := 0;
      NoBlocks(filter, mem);
      while i < |blocks|
        invariant i <= |blocks| && at == memoryOffset + |Content(blocks[..i], filter, mem)|
        invariant forall j :: 0 <= j < i ==> !Dumped(blocks[j], filter, physAddr)
      {
        var block := blocks[i];
        ContentLength(blocks, filter, mem, i);
        if OutOfRange(block, filter) {
          i := i + 1;
          continue;
        }
        var from := Low(block, filter);
        var sizeInBlock := block.end - from;
        if filter.Some? && filter.value.begin + filter.value.length < block.end {
          sizeInBlock := sizeInBlock - (block.end - (filter.value.begin + filter.value.length));
        }
        if from <= physAddr < from + sizeInBlock {
          offset := Some(physAddr - from + at);
          filesz := if physAddr + mappingLength <= from + sizeInBlock then mappingLength
            else sizeInBlock - (physAddr - from);
          ContentHolds(blocks, filter, mem, i, physAddr - from, filesz);
          ClampMeans(block, filter, physAddr, mappingLength, filesz);
          assert block in blocks;
          return;
        }
        at := at + sizeInBlock;
        i := i + 1;
      }
    }

    /** write_memory: a page at a time, then the rest. */
    method WriteMemory(from: nat, size: nat, mem: Memory)
      requires Valid()
      modifies this`out, this`writtenSize
      ensures out == old(out) + Slice(mem, from, size) && writtenSize == old(writtenSize) + size
    {
      var i: nat := 0;
      ghost var done: nat := 0;
      while i < size / pageSize
        invariant i <= size / pageSize && done == i * pageSize
        invariant out == old(out) + Slice(mem, from, done) && writtenSize == old(writtenSize) + done
      {
        SliceSplit(mem, from, done, pageSize);
        out := out + Slice(mem, from + i * pageSize, pageSize);
        writtenSize := writtenSize + pageSize;
        done := done + pageSize;
        i := i + 1;
      }
      assert done + size % pageSize == size;
      SliceSplit(mem, from, done, size % pageSize);
      if size % pageSize != 0 {
        out := out + Slice(mem, from + i * pageSize, size % pageSize);
        writtenSize := writtenSize + size % pageSize;
      }
    }

    /** get_start_block. A result of false stands for -1. */
    method GetStartBlock(ghost mem: Memory) returns (found: bool)
      requires Valid()
      modifies this`next, this`start
      ensures found ==> next <= |blocks| && Content(blocks[..next], filter, mem) == []
      ensures found && blocks != [] ==> next < |blocks| && !OutOfRange(blocks[next], filter)
      ensures found && blocks != [] ==> blocks[next].start + start == Low(blocks[next], filter)
      ensures !found ==> filter.Some? && Content(blocks, filter, mem) == []
      ensures !found ==> forall b :: b in blocks ==> OutOfRange(b, filter)
    {
      if filter.None? {
        next, start := 0, 0;
        return true;
      }
      var i: nat := 0;
      while i < |blocks|
        invariant i <= |blocks| && (forall j :: 0 <= j < i ==> OutOfRange(blocks[j], filter))
        invariant Content(blocks[..i], filter, mem) == []
      {
        var block := blocks[i];
        if OutOfRange(block, filter) {
          ContentStep(blocks, filter, mem, i);
          i := i + 1;
          continue;
        }
        next := i;
        start := if filter.value.begin > block.start then filter.value.begin - block.start else 0;
        return true;
      }
      assert blocks[..i] == blocks;
      return false;
    }

    /** get_next_block. */
    method GetNextBlock(block: nat, ghost mem: Memory) returns (more: bool)
      requires Valid() && block < |blocks|
      modifies this`next, this`start
      ensures more ==> block < next < |blocks| && !OutOfRange(blocks[next], filter)
      ensures more ==> blocks[next].start + start == Low(blocks[next], filter)
      ensures Content(blocks[..block + 1], filter, mem) == Content(if more then blocks[..next] else blocks, filter, mem)
    {
      var i := block;
      while true
        invariant block <= i < |blocks|
        invariant Content(blocks[..block + 1], filter, mem) == Content(blocks[..i + 1], filter, mem)
        decreases |blocks| - i
      {
        i := i + 1;
        if i == |blocks| {
          assert blocks[..i] == blocks;
          return false;
        }
        start, next := 0, i;
        if filter.Some? {
          if OutOfRange(blocks[i], filter) {
            ContentStep(blocks, filter, mem, i);
            continue;
          }
          if filter.value.begin > blocks[i].start {
            start := filter.value.begin - blocks[i].start;
          }
        }
        return true;
      }
    }

    /** dump_iterate, after get_start_block. */
    method DumpIterate(mem: Memory)
      requires Valid() && out == [] && writtenSize == 0
      requires next < |blocks| && !OutOfRange(blocks[next], filter)
      requires blocks[next].start + start == Low(blocks[next], filter)
      requires Content(blocks[..next], filter, mem) == []
      modifies this
      ensures out == Content(blocks, filter, mem) && writtenSize == |out|
    {
      hide Content, Slice;
      var more := true;
      while more
        invariant more ==>
                    && next < |blocks| && !OutOfRange(blocks[next], filter)
                    && blocks[next].start + start == Low(blocks[next], filter)
        invariant out == Content(if more then blocks[..next] else blocks, filter, mem) && writtenSize == |out|
        decreases if more then |blocks| - next else 0
      {
        var block := next;
        ContentStep(blocks, filter, mem, block);
        var size: int := blocks[block].end - blocks[block].start;
        if filter.Some? {
          size := size - start;
          if filter.value.begin + filter.value.length < blocks[block].end {
            size := size - (blocks[block].end - (filter.value.begin + filter.value.length));
          }
        }
        assert size == Size(blocks[block], filter);
        hide Size, High;
        WriteMemory(blocks[block].start + start, size, mem);
        more := GetNextBlock(block, mem);
      }
    }

    /** dump_calculate_size: what the dump will hold. */
    method DumpCalculateSize(ghost mem: Memory) returns (total: nat)
      requires Valid()
      ensures total == |Content(blocks, filter, mem)|
    {
      total := 0;
      var i: nat := 0;
      while i < |blocks|
        invariant i <= |blocks| && total == |Content(blocks[..i], filter, mem)|
      {
        var block := blocks[i];
        ContentStep(blocks, filter, mem, i);
        var size: int;
        if filter.Some? {
          var left := if filter.value.begin > block.start then filter.value.begin else block.start;
          var end := filter.value.begin + filter.value.length;
          var right := if end < block.end then end else block.end;
          size := right - left;
          size := if size > 0 then size else 0;
        } else {
          size := block.end - block.start;
        }
        total := total + size;
        i := i + 1;
      }
      assert blocks[..i] == blocks;
    }

    /** The memory part of a dump, as dump_init and create_vmcore go about it. */
    method CreateVmcore(mem: Memory) returns (ok: bool, total: nat)
      requires Valid() && out == [] && writtenSize == 0 && blocks != []
      modifies this
      ensures ok ==> BytesOf(out, mem, Addresses(blocks, filter)) && writtenSize == total == |out|
      ensures !ok ==> out == [] && total == 0 && Addresses(blocks, filter) == []
      ensures !ok ==> forall b :: b in blocks ==> OutOfRange(b, filter)
    {
      hide Content, Addresses;
      ContentIs(blocks, filter, mem);
      total := DumpCalculateSize(mem);
      ok := GetStartBlock(mem);
      if ok {
        DumpIterate(mem);
      }
    }
  }
}
