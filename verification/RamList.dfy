/** The list of RAM blocks: placement of new blocks, order, and the most recently used block (qemu/exec.c). */
module RamList {
  import opened Common

  /** A RAMBlock. Blocks on the list do not overlap, so a block is known by its place. */
  datatype RamBlock = RamBlock(offset: nat, maxLength: nat)

  const RAM_ADDR_MAX: nat := 0xFFFF_FFFF_FFFF_FFFF

  function End(b: RamBlock): nat {
    b.offset + b.maxLength
  }

  predicate BlockOk(b: RamBlock) {
    b.maxLength > 0 && End(b) <= RAM_ADDR_MAX
  }

  predicate Disjoint(b: RamBlock, c: RamBlock) {
    End(b) <= c.offset || End(c) <= b.offset
  }

  ghost predicate Placed(blocks: seq<RamBlock>) {
    && (forall i :: 0 <= i < |blocks| ==> BlockOk(blocks[i]))
    && forall i, j :: 0 <= i < j < |blocks| ==> Disjoint(blocks[i], blocks[j])
  }

  ghost predicate Sorted(blocks: seq<RamBlock>) {
    forall i, j :: 0 <= i < j < |blocks| ==> blocks[i].maxLength >= blocks[j].maxLength
  }

  /** The start of the next block at or after `end`, or the end of the address space. */
  function NextStart(blocks: seq<RamBlock>, end: nat): nat {
    if blocks == [] then RAM_ADDR_MAX
    else
      var b, rest := blocks[|blocks| - 1], NextStart(blocks[..|blocks| - 1], end);
      if end <= b.offset < rest then b.offset else rest
  }

  lemma {:induction false} NextStartMeans(blocks: seq<RamBlock>, end: nat)
    ensures NextStart(blocks, end) <= RAM_ADDR_MAX
    ensures NextStart(blocks, end) == RAM_ADDR_MAX
            || exists b :: b in blocks && NextStart(blocks, end) == b.offset >= end
    ensures forall b :: b in blocks && b.offset >= end ==> NextStart(blocks, end) <= b.offset
  {
    if blocks != [] {
      NextStartMeans(blocks[..|blocks| - 1], end);
      assert forall c :: c in blocks ==> c == blocks[|blocks| - 1] || c in blocks[..|blocks| - 1];
    }
  }

  /** The free space after a block. */
  function Gap(blocks: seq<RamBlock>, b: RamBlock): int {
    NextStart(blocks, End(b)) - End(b)
  }

  /** The start is in a smallest gap, after some block, that is large enough. */
  ghost predicate BestFit(blocks: seq<RamBlock>, size: nat, offset: nat) {
    exists b :: b in blocks && offset == End(b) && Gap(blocks, b) >= size && NoSmaller(blocks, size, b)
  }

  ghost predicate NoSmaller(blocks: seq<RamBlock>, size: nat, b: RamBlock) {
    forall c :: c in blocks && Gap(blocks, c) >= size ==> Gap(blocks, b) <= Gap(blocks, c)
  }

  /** Whatever fits after a block meets no other. */
  lemma FitsAfter(blocks: seq<RamBlock>, b: RamBlock, size: nat)
    requires Placed(blocks) && b in blocks && Gap(blocks, b) >= size > 0
    ensures BlockOk(RamBlock(End(b), size)) && forall c :: c in blocks ==> Disjoint(c, RamBlock(End(b), size))
  {
    NextStartMeans(blocks, End(b));
    forall c | c in blocks ensures Disjoint(c, RamBlock(End(b), size)) {
      assert c != b ==> Disjoint(b, c) || Disjoint(c, b);
    }
  }

  lemma FitsBest(blocks: seq<RamBlock>, b: RamBlock)
    requires Placed(blocks) && 0 < b.maxLength <= RAM_ADDR_MAX
    requires if blocks == [] then b.offset == 0 else BestFit(blocks, b.maxLength, b.offset)
    ensures BlockOk(b) && forall c :: c in blocks ==> Disjoint(c, b)
  {
    hide Placed, Gap, NoSmaller;
    if blocks != [] {
      var c: RamBlock :| c in blocks && b.offset == End(c) && Gap(blocks, c) >= b.maxLength
        && NoSmaller(blocks, b.maxLength, c);
      FitsAfter(blocks, c, b.maxLength);
    }
  }

  /** A block was put into the list, after none that is smaller. */
  ghost predicate PutIn(before: seq<RamBlock>, after: seq<RamBlock>, b: RamBlock) {
    exists k :: 0 <= k <= |before| && after == before[..k] + [b] + before[k..]
                && forall j :: 0 <= j < k ==> before[j].maxLength >= b.maxLength
  }

  /** The address is in the block, as the code tests it: in 64-bit arithmetic. */
  predicate Hit(b: RamBlock, addr: nat) {
    (addr - b.offset) % 0x1_0000_0000_0000_0000 < b.maxLength
  }

  lemma HitMeans(b: RamBlock, addr: nat)
    requires BlockOk(b) && addr <= RAM_ADDR_MAX
    ensures Hit(b, addr) <==> b.offset <= addr < End(b)
  {
    if addr < b.offset {
      assert (addr - b.offset) % 0x1_0000_0000_0000_0000 == addr - b.offset + 0x1_0000_0000_0000_0000;
    }
  }

  /** At most one block has an address. */
  lemma HitOnce(blocks: seq<RamBlock>, b: RamBlock, c: RamBlock, addr: nat)
    requires Placed(blocks) && b in blocks && c in blocks && addr <= RAM_ADDR_MAX && Hit(b, addr) && Hit(c, addr)
    ensures b == c
  {
    HitMeans(b, addr);
    HitMeans(c, addr);
    assert b != c ==> Disjoint(b, c) || Disjoint(c, b);
  }

  class List {
    var blocks: seq<RamBlock>
    var mru: Option<RamBlock>
    var version: nat

    ghost predicate Valid()
      reads this
    {
      Placed(blocks) && Sorted(blocks) && (mru.Some? ==> mru.value in blocks)
    }

    constructor ()
      ensures Valid() && blocks == [] && mru == None
    {
      blocks, mru, version := [], None, 0;
    }

    /** qemu_get_ram_block. No result stands for the abort. */
    method GetRamBlock(addr: nat) returns (r: Option<RamBlock>)
      requires Valid() && addr <= RAM_ADDR_MAX
      modifies this`mru
      ensures Valid()
      ensures r.Some? ==> r.value in blocks && r.value.offset <= addr < End(r.value) && mru == r
      ensures r.Some? ==> forall b :: b in blocks && b.offset <= addr < End(b) ==> b == r.value
      ensures r.None? ==> mru == old(mru) && forall b :: b in blocks ==> !(b.offset <= addr < End(b))
    {
      forall b | b in blocks ensures Hit(b, addr) <==> b.offset <= addr < End(b) {
        HitMeans(b, addr);
      }
      forall b, c | b in blocks && c in blocks && Hit(b, addr) && Hit(c, addr) ensures b == c {
        HitOnce(blocks, b, c, addr);
      }
      hide Hit, Placed;
      if mru.Some? && Hit(mru.value, addr) {
        return mru;
      }
      var i: nat := 0;
      while i < |blocks|
        invariant i <= |blocks| && mru == old(mru) && forall j :: 0 <= j < i ==> !Hit(blocks[j], addr)
      {
        if Hit(blocks[i], addr) {
          mru := Some(blocks[i]);
          return mru;
        }
        i := i + 1;
      }
      return None;
    }

    /** find_ram_offset. No result stands for the abort. */
    method FindRamOffset(size: nat) returns (r: Option<nat>)
      requires Valid() && 0 < size <= RAM_ADDR_MAX
      ensures blocks == [] ==> r == Some(0)
      ensures blocks != [] && r.Some? ==> BestFit(blocks, size, r.value)
      ensures r.None? <==> blocks != [] && forall b :: b in blocks ==> Gap(blocks, b) < size
    {
      if blocks == [] {
        return Some(0);
      }
      PlacedOk(blocks);
      hide NextStart, Placed, Sorted, BestFit, NoSmaller, Smallest;
      var offset, mingap := RAM_ADDR_MAX, RAM_ADDR_MAX;
      var i: nat := 0;
      ghost var best: Option<RamBlock> := None;
      SmallestStart(blocks, size);
      while i < |blocks|
        invariant i <= |blocks| && Smallest(blocks, size, i, best, mingap)
        invariant offset == if best.Some? then End(best.value) else RAM_ADDR_MAX
        invariant best.Some? ==> offset < RAM_ADDR_MAX
      {
        var end := End(blocks[i]);
        var next := Next(end);
        SmallestStep(blocks, size, i, best, mingap);
        if next - end >= size && next - end < mingap {
          offset, mingap := end, next - end;
          best := Some(blocks[i]);
        }
        i := i + 1;
      }
      SmallestEnd(blocks, size, best, mingap);
      if offset == RAM_ADDR_MAX {
        return None;
      }
      return Some(offset);
    }

    /** The inner loop of find_ram_offset. */
    method Next(end: nat) returns (next: nat)
      ensures next == NextStart(blocks, end)
    {
      next := RAM_ADDR_MAX;
      var i: nat := 0;
      while i < |blocks|
        invariant i <= |blocks| && next == NextStart(blocks[..i], end)
      {
        assert blocks[..i + 1][..i] == blocks[..i];
        if blocks[i].offset >= end {
          next := if blocks[i].offset < next then blocks[i].offset else next;
        }
        i := i + 1;
      }
      assert blocks[..i] == blocks;
    }

    /** ram_block_add, where `memoryOk` says whether the host memory could be had. An abort leaves nothing. */
    method RamBlockAdd(maxLength: nat, memoryOk: bool) returns (r: Option<RamBlock>)
      requires Valid() && 0 < maxLength <= RAM_ADDR_MAX
      modifies this
      ensures Valid()
      ensures r.None? ==> blocks == old(blocks) && mru == old(mru) && version == old(version)
      ensures r.None? <==> !memoryOk || (old(blocks) != [] && forall b :: b in old(blocks) ==>
                                           Gap(old(blocks), b) < maxLength)
      ensures r.Some? ==>
                && r.value.maxLength == maxLength && mru == None && version == old(version) + 1
                && (if old(blocks) == [] then r.value.offset == 0 else BestFit(old(blocks), maxLength, r.value.offset))
                && PutIn(old(blocks), blocks, r.value)
    {
      var offset := FindRamOffset(maxLength);
      if offset.None? || !memoryOk {
        return None;
      }
      var block := RamBlock(offset.value, maxLength);
      hide BestFit, Gap, Placed, Sorted, Disjoint, BlockOk, PutIn;
      FitsBest(blocks, block);
      Insert(block);
      mru := None;
      version := version + 1;
      r := Some(block);
    }

    /** Insertion before the first smaller block. */
    method Insert(block: RamBlock)
      requires Placed(blocks) && Sorted(blocks) && BlockOk(block) && forall c :: c in blocks ==> Disjoint(c, block)
      modifies this`blocks
      ensures Placed(blocks) && Sorted(blocks) && PutIn(old(blocks), blocks, block)
    {
      hide Placed, Sorted, Disjoint, BlockOk;
      var k: nat := 0;
      while k < |blocks| && blocks[k].maxLength >= block.maxLength
        invariant k <= |blocks| && forall j :: 0 <= j < k ==> blocks[j].maxLength >= block.maxLength
      {
        k := k + 1;
      }
      Inserted(blocks, block, k);
      blocks := blocks[..k] + [block] + blocks[k..];
    }

    /** qemu_ram_free */
    method RamFree(block: Option<RamBlock>)
      requires Valid() && (block.Some? ==> block.value in blocks)
      modifies this
      ensures Valid()
      ensures block.None? ==> blocks == old(blocks) && mru == old(mru) && version == old(version)
      ensures block.Some? ==>
                && mru == None && version == old(version) + 1
                && exists k :: 0 <= k < |old(blocks)| && old(blocks)[k] == block.value
                     && blocks == old(blocks)[..k] + old(blocks)[k + 1..]
    {
      if block.None? {
        return;
      }
      var k: nat := 0;
      while blocks[k] != block.value
        invariant k < |blocks| && exists j :: k <= j < |blocks| && blocks[j] == block.value
        decreases |blocks| - k
      {
        k := k + 1;
      }
      Removed(blocks, k);
      blocks := blocks[..k] + blocks[k + 1..];
      mru := None;
      version := version + 1;
    }
  }

  lemma PlacedOk(blocks: seq<RamBlock>)
    requires Placed(blocks)
    ensures forall i :: 0 <= i < |blocks| ==> BlockOk(blocks[i])
  {
  }

  /** `best` is where find_ram_offset stands after i blocks: none had room, or `mingap` is the smallest gap with room,
      and is after `best`. */
  ghost predicate Smallest(blocks: seq<RamBlock>, size: nat, i: nat, best: Option<RamBlock>, mingap: int) {
    && i <= |blocks|
    && (best.None? ==> mingap == RAM_ADDR_MAX && forall j :: 0 <= j < i ==> Gap(blocks, blocks[j]) < size)
    && (best.Some? ==> best.value in blocks && mingap == Gap(blocks, best.value) >= size)
    && (forall j :: 0 <= j < i && Gap(blocks, blocks[j]) >= size ==> mingap <= Gap(blocks, blocks[j]))
  }

  lemma SmallestStart(blocks: seq<RamBlock>, size: nat)
    ensures Smallest(blocks, size, 0, None, RAM_ADDR_MAX)
  {
  }

  lemma SmallestStep(blocks: seq<RamBlock>, size: nat, i: nat, best: Option<RamBlock>, mingap: int)
    requires i < |blocks| && Smallest(blocks, size, i, best, mingap) && BlockOk(blocks[i]) && size > 0
    ensures var gap := Gap(blocks, blocks[i]);
            if size <= gap < mingap
            then Smallest(blocks, size, i + 1, Some(blocks[i]), gap) && End(blocks[i]) < RAM_ADDR_MAX
            else Smallest(blocks, size, i + 1, best, mingap)
  {
    NextStartMeans(blocks, End(blocks[i]));
    assert Gap(blocks, blocks[i]) < RAM_ADDR_MAX;
    hide NextStart;
  }

  lemma SmallestEnd(blocks: seq<RamBlock>, size: nat, best: Option<RamBlock>, mingap: int)
    requires Smallest(blocks, size, |blocks|, best, mingap)
    ensures best.None? <==> forall b :: b in blocks ==> Gap(blocks, b) < size
    ensures best.Some? ==> BestFit(blocks, size, End(best.value))
  {
    hide Gap;
    if best.Some? {
      assert NoSmaller(blocks, size, best.value);
    }
  }

  /** A block that meets no other, put before the first smaller one. */
  lemma Inserted(blocks: seq<RamBlock>, b: RamBlock, k: nat)
    requires Placed(blocks) && Sorted(blocks) && BlockOk(b) && (forall c :: c in blocks ==> Disjoint(c, b))
    requires k <= |blocks|
    requires (forall j :: 0 <= j < k ==> blocks[j].maxLength >= b.maxLength)
    requires (k < |blocks| ==> blocks[k].maxLength < b.maxLength)
    ensures var s := blocks[..k] + [b] + blocks[k..]; Placed(s) && Sorted(s)
  {
    InsertedPlaced(blocks, b, k);
    InsertedSorted(blocks, b, k);
    hide Placed, Sorted;
  }

  lemma InsertedAt(blocks: seq<RamBlock>, b: RamBlock, k: nat, i: nat)
    requires k <= |blocks| && i <= |blocks|
    ensures (blocks[..k] + [b] + blocks[k..])[i] == if i < k then blocks[i] else if i == k then b else blocks[i - 1]
  {
  }

  lemma InsertedPlaced(blocks: seq<RamBlock>, b: RamBlock, k: nat)
    requires Placed(blocks) && BlockOk(b) && (forall c :: c in blocks ==> Disjoint(c, b)) && k <= |blocks|
    ensures Placed(blocks[..k] + [b] + blocks[k..])
  {
    var s := blocks[..k] + [b] + blocks[k..];
    forall i | 0 <= i < |s| ensures BlockOk(s[i]) {
      InsertedAt(blocks, b, k, i);
    }
    forall i, j | 0 <= i < j < |s| ensures Disjoint(s[i], s[j]) {
      InsertedAt(blocks, b, k, i);
      InsertedAt(blocks, b, k, j);
      if i != k && j != k {
        assert Disjoint(blocks[if i < k then i else i - 1], blocks[if j < k then j else j - 1]);
      } else if j == k {
        assert Disjoint(blocks[i], b);
      } else {
        assert Disjoint(blocks[j - 1], b);
      }
    }
  }

  lemma InsertedSorted(blocks: seq<RamBlock>, b: RamBlock, k: nat)
    requires Sorted(blocks) && k <= |blocks|
    requires (forall j :: 0 <= j < k ==> blocks[j].maxLength >= b.maxLength)
    requires (k < |blocks| ==> blocks[k].maxLength < b.maxLength)
    ensures Sorted(blocks[..k] + [b] + blocks[k..])
  {
    var s := blocks[..k] + [b] + blocks[k..];
    forall i, j | 0 <= i < j < |s| ensures s[i].maxLength >= s[j].maxLength {
      InsertedAt(blocks, b, k, i);
      InsertedAt(blocks, b, k, j);
    }
  }

  lemma Removed(blocks: seq<RamBlock>, k: nat)
    requires Placed(blocks) && Sorted(blocks) && k < |blocks|
    ensures var s := blocks[..k] + blocks[k + 1..]; Placed(s) && Sorted(s)
  {
    var s := blocks[..k] + blocks[k + 1..];
    assert forall i :: 0 <= i < |s| ==> s[i] == if i < k then blocks[i] else blocks[i + 1];
  }
}
