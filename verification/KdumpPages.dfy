/** The guest's pages in dump order, and get_next_page's walk over them (qemu/dump.c). */
module KdumpPages {
  import opened Common
  import opened Arithmetic

  /** A GuestPhysBlock. Its start and end are page aligned, so it is given by the number of its
      first page and the contents of its pages. */
  datatype Block = Block(first: nat, pages: seq<seq<byte>>)

  /** A page of the guest: its frame number, its block and its contents. */
  datatype PageRec = PageRec(pfn: nat, block: nat, data: seq<byte>)

  /** Blocks are non-empty, sorted and disjoint; no page lies before ARCH_PFN_OFFSET. */
  ghost predicate BlocksOk(pageSize: nat, pfnOffset: nat, blocks: seq<Block>) {
    && 0 < pageSize
    && (forall i :: 0 <= i < |blocks| ==>
          && pfnOffset <= blocks[i].first && 0 < |blocks[i].pages|
          && forall j :: 0 <= j < |blocks[i].pages| ==> |blocks[i].pages[j]| == pageSize)
    && (forall i, j :: 0 <= i < j < |blocks| ==> blocks[i].first + |blocks[i].pages| <= blocks[j].first)
  }

  ghost function BlockPages(pfnOffset: nat, b: Block, i: nat): seq<PageRec>
    requires pfnOffset <= b.first
  {
    seq(|b.pages|, j requires 0 <= j < |b.pages| => PageRec(b.first - pfnOffset + j, i, b.pages[j]))
  }

  /** All pages of the blocks in order. */
  ghost function Pages(pageSize: nat, pfnOffset: nat, blocks: seq<Block>): seq<PageRec>
    requires BlocksOk(pageSize, pfnOffset, blocks)
  {
    if blocks == [] then []
    else
      var n := |blocks| - 1;
      Pages(pageSize, pfnOffset, blocks[..n]) + BlockPages(pfnOffset, blocks[n], n)
  }

  /** How many pages come before block `i`. */
  ghost function Start(pageSize: nat, pfnOffset: nat, blocks: seq<Block>, i: nat): nat
    requires BlocksOk(pageSize, pfnOffset, blocks) && i <= |blocks|
  {
    |Pages(pageSize, pfnOffset, blocks[..i])|
  }

  lemma StartNext(pageSize: nat, pfnOffset: nat, blocks: seq<Block>, i: nat)
    requires BlocksOk(pageSize, pfnOffset, blocks) && i < |blocks|
    ensures Start(pageSize, pfnOffset, blocks, i + 1) == Start(pageSize, pfnOffset, blocks, i) + |blocks[i].pages|
  {
    assert blocks[..i + 1][..i] == blocks[..i];
  }

  /** Page `j` of block `i` comes after the pages of the blocks before it. */
  lemma {:induction false} PageOfBlock(pageSize: nat, pfnOffset: nat, blocks: seq<Block>, i: nat, j: nat)
    requires BlocksOk(pageSize, pfnOffset, blocks) && i < |blocks| && j < |blocks[i].pages|
    ensures var k := Start(pageSize, pfnOffset, blocks, i) + j;
            var ps := Pages(pageSize, pfnOffset, blocks);
            k < |ps| && ps[k] == PageRec(blocks[i].first - pfnOffset + j, i, blocks[i].pages[j])
    decreases |blocks|
  {
    var n := |blocks| - 1;
    if i < n {
      PageOfBlock(pageSize, pfnOffset, blocks[..n], i, j);
      assert blocks[..n][..i] == blocks[..i];
    }
  }

  /** Every page is a page of its block. */
  lemma {:induction false} PageInBlock(pageSize: nat, pfnOffset: nat, blocks: seq<Block>, k: nat)
    requires BlocksOk(pageSize, pfnOffset, blocks) && k < |Pages(pageSize, pfnOffset, blocks)|
    ensures var p := Pages(pageSize, pfnOffset, blocks)[k];
            && p.block < |blocks| && blocks[p.block].first <= p.pfn + pfnOffset
            && p.pfn + pfnOffset < blocks[p.block].first + |blocks[p.block].pages|
            && p.data == blocks[p.block].pages[p.pfn + pfnOffset - blocks[p.block].first]
    decreases |blocks|
  {
    var n := |blocks| - 1;
    if k < |Pages(pageSize, pfnOffset, blocks[..n])| {
      PageInBlock(pageSize, pfnOffset, blocks[..n], k);
    }
  }

  /** The frame numbers lie below `end` and grow strictly; every page has `size` bytes. */
  ghost predicate Ascending(ps: seq<PageRec>, end: nat, size: nat) {
    && (forall a, b :: 0 <= a < b < |ps| ==> ps[a].pfn < ps[b].pfn)
    && (forall a :: 0 <= a < |ps| ==> ps[a].pfn < end && |ps[a].data| == size)
  }

  lemma AscendingThen(p: seq<PageRec>, q: seq<PageRec>, mid: nat, end: nat, size: nat)
    requires Ascending(p, mid, size) && Ascending(q, end, size) && mid <= end
    requires forall a :: 0 <= a < |q| ==> mid <= q[a].pfn
    ensures Ascending(p + q, end, size)
  {
  }

  /** The frame after the last block: get_max_mapnr. */
  function MaxMapnr(pfnOffset: nat, blocks: seq<Block>): int {
    if blocks == [] then 0
    else blocks[|blocks| - 1].first + |blocks[|blocks| - 1].pages| - pfnOffset
  }

  lemma {:induction false} PagesSorted(pageSize: nat, pfnOffset: nat, blocks: seq<Block>)
    requires BlocksOk(pageSize, pfnOffset, blocks)
    ensures 0 <= MaxMapnr(pfnOffset, blocks)
    ensures Ascending(Pages(pageSize, pfnOffset, blocks), MaxMapnr(pfnOffset, blocks), pageSize)
    ensures blocks != [] ==> Pages(pageSize, pfnOffset, blocks) != []
                             && Pages(pageSize, pfnOffset, blocks)[|Pages(pageSize, pfnOffset, blocks)| - 1].pfn
                                == MaxMapnr(pfnOffset, blocks) - 1
  {
    if blocks != [] {
      var n := |blocks| - 1;
      PagesSorted(pageSize, pfnOffset, blocks[..n]);
      var own := BlockPages(pfnOffset, blocks[n], n);
      assert n > 0 ==> blocks[..n][n - 1] == blocks[n - 1];
      AscendingThen(Pages(pageSize, pfnOffset, blocks[..n]), own, MaxMapnr(pfnOffset, blocks[..n]),
                    MaxMapnr(pfnOffset, blocks), pageSize);
    }
  }

  /** The walk's position: block `bi` and frame `pfn` are page number `k`. */
  ghost predicate AtPage(pageSize: nat, pfnOffset: nat, blocks: seq<Block>, bi: nat, pfn: nat, k: nat)
    requires BlocksOk(pageSize, pfnOffset, blocks)
  {
    && bi < |blocks| && blocks[bi].first <= pfn + pfnOffset < blocks[bi].first + |blocks[bi].pages|
    && k == Start(pageSize, pfnOffset, blocks, bi) + (pfn + pfnOffset - blocks[bi].first)
  }

  lemma AtPageFacts(pageSize: nat, pfnOffset: nat, blocks: seq<Block>, bi: nat, pfn: nat, k: nat)
    requires BlocksOk(pageSize, pfnOffset, blocks) && AtPage(pageSize, pfnOffset, blocks, bi, pfn, k)
    ensures var ps := Pages(pageSize, pfnOffset, blocks);
            k < |ps| && ps[k] == PageRec(pfn, bi, blocks[bi].pages[pfn + pfnOffset - blocks[bi].first])
  {
    PageOfBlock(pageSize, pfnOffset, blocks, bi, pfn + pfnOffset - blocks[bi].first);
  }

  /** The first page, and the page after page `k`. */
  lemma StepFacts(pageSize: nat, pfnOffset: nat, blocks: seq<Block>, bi: nat, pfn: nat, k: nat)
    requires BlocksOk(pageSize, pfnOffset, blocks) && AtPage(pageSize, pfnOffset, blocks, bi, pfn, k)
    ensures pfn + 1 + pfnOffset < blocks[bi].first + |blocks[bi].pages| ==>
              AtPage(pageSize, pfnOffset, blocks, bi, pfn + 1, k + 1)
    ensures pfn + 1 + pfnOffset == blocks[bi].first + |blocks[bi].pages| && bi + 1 < |blocks| ==>
              AtPage(pageSize, pfnOffset, blocks, bi + 1, blocks[bi + 1].first - pfnOffset, k + 1)
    ensures pfn + 1 + pfnOffset == blocks[bi].first + |blocks[bi].pages| && bi + 1 == |blocks| ==>
              k + 1 == |Pages(pageSize, pfnOffset, blocks)|
  {
    StartNext(pageSize, pfnOffset, blocks, bi);
    assert blocks[..|blocks|] == blocks;
  }

  datatype Cursor = Before | On(block: nat) | Past

  /** get_next_page. `iter` is the block pointer, null before the first call and after the last;
      the walk visits exactly the pages of `Pages`, in order. */
  method GetNextPage(pageSize: nat, pfnOffset: nat, blocks: seq<Block>, iter: Cursor, pfn: nat, ghost k: int)
    returns (more: bool, iter': Cursor, pfn': nat, buf: seq<byte>)
    requires BlocksOk(pageSize, pfnOffset, blocks) && blocks != []
    requires (iter.Before? && k == -1) || (iter.On? && 0 <= k
                                           && AtPage(pageSize, pfnOffset, blocks, iter.block, pfn, k))
    ensures more <==> k + 1 < |Pages(pageSize, pfnOffset, blocks)|
    ensures more ==> iter'.On? && AtPage(pageSize, pfnOffset, blocks, iter'.block, pfn', k + 1)
    ensures more ==> Pages(pageSize, pfnOffset, blocks)[k + 1] == PageRec(pfn', iter'.block, buf)
    ensures !more ==> iter'.Past?
  {
    if iter.Before? {
      iter', pfn', buf := On(0), blocks[0].first - pfnOffset, blocks[0].pages[0];
      more := true;
      AtPageFacts(pageSize, pfnOffset, blocks, 0, pfn', 0);
      return;
    }
    StepFacts(pageSize, pfnOffset, blocks, iter.block, pfn, k);
    pfn' := pfn + 1;
    var b := blocks[iter.block];
    var addr := (pfn' + pfnOffset) * pageSize;
    AddressOrder(pageSize, b.first, pfn' + pfnOffset, |b.pages|);
    if addr >= b.first * pageSize && addr + pageSize <= (b.first + |b.pages|) * pageSize {
      iter', buf, more := iter, b.pages[pfn' + pfnOffset - b.first], true;
    } else {
      if iter.block + 1 == |blocks| {
        iter', buf, more := Past, [], false;
        return;
      }
      iter' := On(iter.block + 1);
      pfn' := blocks[iter'.block].first - pfnOffset;
      buf, more := blocks[iter'.block].pages[0], true;
    }
    AtPageFacts(pageSize, pfnOffset, blocks, iter'.block, pfn', k + 1);
  }

  /** Comparing addresses is comparing page numbers. */
  lemma AddressOrder(size: nat, first: nat, p: nat, n: nat)
    requires 0 < size
    ensures p * size >= first * size <==> p >= first
    ensures p * size + size <= (first + n) * size <==> p < first + n
  {
    MulOrder(size, first, p);
    MulOrder(size, p + 1, first + n);
    assert (p + 1) * size == p * size + size;
  }
}
