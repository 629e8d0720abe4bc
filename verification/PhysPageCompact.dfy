/** Path compaction of the radix tree: phys_page_compact and phys_page_compact_all
    (qemu/exec.c). Compacted paths may reach a leaf that the page does not belong to,
    but only for pages that were unassigned. */
module PhysPageCompact {
  import opened Arithmetic
  import opened RadixTree
  import opened PhysPageSet

  /** Section `s` is found at some page of the range of height `h` at `b`. */
  ghost predicate Occurs(g: Geometry, nodes: seq<Node>, e: Entry, h: nat, b: nat, s: nat) {
    0 < g.fanout && exists q: nat :: Contains(g.fanout, h, b, q) && Walk(g, nodes, e, h, q) == s
  }

  /** The walk for page `p` is unchanged, or `p` was unassigned and now shows a section of the same range. */
  ghost predicate SameOrStray(g: Geometry, nodes: seq<Node>, e: Entry, nodes': seq<Node>, e': Entry, h: nat, b: nat,
                              p: nat)
    requires 0 < g.fanout
  {
    var w, w' := Walk(g, nodes, e, h, p), Walk(g, nodes', e', h, p);
    w' == w || (w == UNASSIGNED && Occurs(g, nodes, e, h, b, w'))
  }

  ghost predicate Compacted(g: Geometry, nodes: seq<Node>, e: Entry, nodes': seq<Node>, e': Entry, h: nat, b: nat) {
    0 < g.fanout && forall p: nat :: Contains(g.fanout, h, b, p) ==> SameOrStray(g, nodes, e, nodes', e', h, b, p)
  }

  lemma CompactedThen(g: Geometry, n0: seq<Node>, e0: Entry, n1: seq<Node>, e1: Entry, n2: seq<Node>, e2: Entry,
                      h: nat, b: nat)
    requires Compacted(g, n0, e0, n1, e1, h, b) && Compacted(g, n1, e1, n2, e2, h, b)
    ensures Compacted(g, n0, e0, n2, e2, h, b)
  {
    forall p: nat | Contains(g.fanout, h, b, p)
      ensures SameOrStray(g, n0, e0, n2, e2, h, b, p)
    {
      assert SameOrStray(g, n0, e0, n1, e1, h, b, p) && SameOrStray(g, n1, e1, n2, e2, h, b, p);
      var w2 := Walk(g, n2, e2, h, p);
      if w2 != Walk(g, n1, e1, h, p) {
        var q: nat :| Contains(g.fanout, h, b, q) && Walk(g, n1, e1, h, q) == w2;
        assert SameOrStray(g, n0, e0, n1, e1, h, b, q);
      }
    }
  }

  /** A page of child `j`, when that child is compacted. */
  lemma ChildPage(g: Geometry, nodes: seq<Node>, labels: seq<Label>, q: nat, j: nat, n1: seq<Node>, c: Entry, p: nat)
    requires TreeOk(g, nodes, labels) && TreeOk(g, n1, labels) && q < |nodes| && q < g.nil && j < g.fanout
    requires |nodes[q]| == g.fanout && n1[q] == nodes[q]
    requires var h := labels[q].lev; var b := EntryBase(g.fanout, h, labels[q].base, j);
             EntryOk(g, labels, c, h, b) && Compacted(g, nodes, nodes[q][j], n1, c, h, b)
    requires Contains(g.fanout, labels[q].lev + 1, labels[q].base, p) && Digit(g.fanout, labels[q].lev, p) == j
    ensures SameOrStray(g, nodes, Entry(1, q), n1[q := n1[q][j := c]], Entry(1, q), labels[q].lev + 1,
                        labels[q].base, p)
  {
    hide EntryOk, Walk, Digit, EntryBase, Contains, Occurs;
    var l := labels[q];
    var n2 := n1[q := n1[q][j := c]];
    assert NodeOk(g, labels, nodes[q], l);
    DigitSelects(g.fanout, l.lev, l.base, p);
    var a := EntryBase(g.fanout, l.lev, l.base, j);
    WalkThrough(g, n2, q, l.lev + 1, p);
    WalkThrough(g, nodes, q, l.lev + 1, p);
    StoredWalk(g, n1, labels, q, n2[q], c, l.lev, a, p);
    assert SameOrStray(g, nodes, nodes[q][j], n1, c, l.lev, a, p);
    var w := Walk(g, n1, c, l.lev, p);
    if Occurs(g, nodes, nodes[q][j], l.lev, a, w) {
      OccursAbove(g, nodes, labels, q, j, w);
    }
  }

  /** A page of another child. */
  lemma OtherChildPage(g: Geometry, nodes: seq<Node>, labels: seq<Label>, q: nat, j: nat, n1: seq<Node>, c: Entry,
                       p: nat)
    requires TreeOk(g, nodes, labels) && q < |nodes| == |n1| && q < g.nil && j < g.fanout
    requires |nodes[q]| == g.fanout && n1[q] == nodes[q]
    requires Framed(g, nodes, labels, n1, labels, labels[q].lev, EntryBase(g.fanout, labels[q].lev, labels[q].base, j))
    requires Contains(g.fanout, labels[q].lev + 1, labels[q].base, p) && Digit(g.fanout, labels[q].lev, p) != j
    ensures SameOrStray(g, nodes, Entry(1, q), n1[q := n1[q][j := c]], Entry(1, q), labels[q].lev + 1,
                        labels[q].base, p)
  {
    hide EntryOk, Walk, EntryBase, Contains, Occurs, Framed;
    var l := labels[q];
    var i := Digit(g.fanout, l.lev, p);
    var n2 := n1[q := n1[q][j := c]];
    assert NodeOk(g, labels, nodes[q], l);
    WalkThrough(g, n2, q, l.lev + 1, p);
    WalkThrough(g, nodes, q, l.lev + 1, p);
    assert EntryOk(g, labels, nodes[q][i], l.lev, EntryBase(g.fanout, l.lev, l.base, i));
    SiblingWalk(g, nodes, labels, q, i, j, n1, labels, n2[q], p);
  }

  /** Compacting child `j` of node `q` compacts the node's range. */
  lemma ChildCompacted(g: Geometry, nodes: seq<Node>, labels: seq<Label>, q: nat, j: nat, n1: seq<Node>, c: Entry)
    requires TreeOk(g, nodes, labels) && TreeOk(g, n1, labels) && q < |nodes| && q < g.nil && j < g.fanout
    requires |nodes[q]| == g.fanout && n1[q] == nodes[q]
    requires var h := labels[q].lev; var b := EntryBase(g.fanout, h, labels[q].base, j);
             && EntryOk(g, labels, c, h, b)
             && Framed(g, nodes, labels, n1, labels, h, b)
             && Compacted(g, nodes, nodes[q][j], n1, c, h, b)
    ensures Compacted(g, nodes, Entry(1, q), n1[q := n1[q][j := c]], Entry(1, q), labels[q].lev + 1, labels[q].base)
  {
    hide EntryOk, SameOrStray, Walk, Digit, EntryBase, Framed, Contains;
    var h, b, n2 := labels[q].lev + 1, labels[q].base, n1[q := n1[q][j := c]];
    forall p: nat | Contains(g.fanout, h, b, p) ensures SameOrStray(g, nodes, Entry(1, q), n2, Entry(1, q), h, b, p) {
      if Digit(g.fanout, labels[q].lev, p) == j {
        ChildPage(g, nodes, labels, q, j, n1, c, p);
      } else {
        OtherChildPage(g, nodes, labels, q, j, n1, c, p);
      }
    }
  }

  /** What occurs in a child occurs in the node. */
  lemma OccursAbove(g: Geometry, nodes: seq<Node>, labels: seq<Label>, q: nat, j: nat, s: nat)
    requires 0 < g.fanout && q < |nodes| == |labels| && q != g.nil && j < g.fanout
    requires NodeOk(g, labels, nodes[q], labels[q])
    requires var l := labels[q]; Occurs(g, nodes, nodes[q][j], l.lev, EntryBase(g.fanout, l.lev, l.base, j), s)
    ensures Occurs(g, nodes, Entry(1, q), labels[q].lev + 1, labels[q].base, s)
  {
    var l := labels[q];
    var a := EntryBase(g.fanout, l.lev, l.base, j);
    var r: nat :| Contains(g.fanout, l.lev, a, r) && Walk(g, nodes, nodes[q][j], l.lev, r) == s;
    DigitUnique(g.fanout, l.lev, l.base, j, r);
    WalkThrough(g, nodes, q, l.lev + 1, r);
    assert Contains(g.fanout, l.lev + 1, l.base, r);
  }

  /** Entry `j` is the only child of the node. */
  ghost predicate OnlyChild(g: Geometry, node: Node, j: nat) {
    j < |node| && node[j].ptr != g.nil && forall i :: 0 <= i < |node| && i != j ==> node[i].ptr == g.nil
  }

  /** The entry that replaces a plain entry whose node has the only child `c`. */
  function Folded(c: Entry): Entry {
    if c.skip == 0 then Entry(0, c.ptr) else Entry(1 + c.skip, c.ptr)
  }

  /** Skipping a node with a single child keeps the entry well formed and every assigned page. */
  lemma FoldCompacted(g: Geometry, nodes: seq<Node>, labels: seq<Label>, q: nat, j: nat)
    requires 2 <= g.fanout && TreeOk(g, nodes, labels) && q < |nodes| && q < g.nil && OnlyChild(g, nodes[q], j)
    ensures EntryOk(g, labels, Folded(nodes[q][j]), labels[q].lev + 1, labels[q].base)
    ensures Compacted(g, nodes, Entry(1, q), nodes, Folded(nodes[q][j]), labels[q].lev + 1, labels[q].base)
  {
    assert NodeOk(g, labels, nodes[q], labels[q]);
    FoldEntryOk(g, labels, nodes[q], labels[q], j);
    hide TreeOk, EntryOk, NodeOk, OnlyChild, SameOrStray, Folded, Contains;
    var h, b, c := labels[q].lev + 1, labels[q].base, Folded(nodes[q][j]);
    forall p: nat | Contains(g.fanout, h, b, p) ensures SameOrStray(g, nodes, Entry(1, q), nodes, c, h, b, p) {
      FoldPage(g, nodes, labels, q, j, p);
    }
  }

  lemma FoldPage(g: Geometry, nodes: seq<Node>, labels: seq<Label>, q: nat, j: nat, p: nat)
    requires 2 <= g.fanout && q < |nodes| == |labels| && q < g.nil && OnlyChild(g, nodes[q], j)
    requires NodeOk(g, labels, nodes[q], labels[q]) && nodes[q][j].skip <= labels[q].lev
    ensures SameOrStray(g, nodes, Entry(1, q), nodes, Folded(nodes[q][j]), labels[q].lev + 1, labels[q].base, p)
  {
    hide Occurs, Folded, EntryBase;
    var l := labels[q];
    var d := Digit(g.fanout, l.lev, p);
    WalkThrough(g, nodes, q, l.lev + 1, p);
    FoldedWalk(g, nodes, nodes[q][j], l.lev, p);
    if d != j {
      assert EntryOk(g, labels, nodes[q][d], l.lev, EntryBase(g.fanout, l.lev, l.base, d));
      assert Walk(g, nodes, nodes[q][d], l.lev, p) == UNASSIGNED;
      StrayOccurs(g, nodes, labels, q, j, p);
    }
  }

  lemma FoldedWalk(g: Geometry, nodes: seq<Node>, c: Entry, lev: nat, p: nat)
    requires 0 < g.fanout && c.skip <= lev
    ensures Walk(g, nodes, Folded(c), lev + 1, p) == Walk(g, nodes, c, lev, p)
  {
  }

  lemma FoldEntryOk(g: Geometry, labels: seq<Label>, node: Node, l: Label, j: nat)
    requires 2 <= g.fanout && NodeOk(g, labels, node, l) && OnlyChild(g, node, j)
    ensures node[j].skip <= l.lev
    ensures EntryOk(g, labels, Folded(node[j]), l.lev + 1, l.base)
  {
    var c := node[j];
    assert EntryOk(g, labels, c, l.lev, EntryBase(g.fanout, l.lev, l.base, j));
    if c.skip == 0 {
      var i := if j == 0 then 1 else 0;
      assert EntryOk(g, labels, node[i], l.lev, EntryBase(g.fanout, l.lev, l.base, i));
    } else {
      InsideChild(g, labels[c.ptr], l.lev, l.base, j);
    }
  }

  /** A walk that strays into child `j` shows what the child has at the same offset. */
  lemma StrayOccurs(g: Geometry, nodes: seq<Node>, labels: seq<Label>, q: nat, j: nat, p: nat)
    requires 0 < g.fanout && q < |nodes| == |labels| && q != g.nil && j < g.fanout
    requires NodeOk(g, labels, nodes[q], labels[q])
    ensures Occurs(g, nodes, Entry(1, q), labels[q].lev + 1, labels[q].base,
                   Walk(g, nodes, nodes[q][j], labels[q].lev, p))
  {
    var l := labels[q];
    var a := EntryBase(g.fanout, l.lev, l.base, j);
    var s := Span(g.fanout, l.lev);
    EntryInNode(g.fanout, l.lev, l.base, j);
    var r := a + p % s;
    SameOffset(s, a, p);
    WalkLowDigits(g, nodes, nodes[q][j], l.lev, p, r);
    assert Contains(g.fanout, l.lev, a, r);
    OccursAbove(g, nodes, labels, q, j, Walk(g, nodes, nodes[q][j], l.lev, p));
  }

  lemma SameOffset(s: nat, a: nat, p: nat)
    requires 0 < s && a % s == 0
    ensures (a + p % s) % s == p % s
  {
    var r, k := p % s, a / s;
    MultipleOf(a, s);
    SmallMod(r, s, k);
  }

  /** No node inside the range of height `h` at `b` has been compacted. */
  ghost predicate PlainInside(g: Geometry, nodes: seq<Node>, labels: seq<Label>, h: nat, b: nat) {
    |nodes| == |labels| && forall m :: 0 <= m < |nodes| && Inside(g, labels[m], h, b) ==> Plain(nodes[m])
  }

  /** State of phys_page_compact's loop before entry `i` of node `q`: the entries before `i`
      are compacted, the others untouched. */
  ghost predicate InScan(g: Geometry, n0: seq<Node>, nodes: seq<Node>, labels: seq<Label>, q: nat, i: nat) {
    && 0 < g.fanout && TreeOk(g, nodes, labels) && q < |nodes| && q < g.nil && i <= g.fanout
    && |n0| == |nodes| && |n0[q]| == |nodes[q]| == g.fanout
    && Framed(g, n0, labels, nodes, labels, labels[q].lev + 1, labels[q].base)
    && (forall k :: i <= k < g.fanout ==> nodes[q][k] == n0[q][k])
    && (forall k :: i <= k < g.fanout ==>
          PlainInside(g, nodes, labels, labels[q].lev, EntryBase(g.fanout, labels[q].lev, labels[q].base, k)))
    && Compacted(g, n0, Entry(1, q), nodes, Entry(1, q), labels[q].lev + 1, labels[q].base)
  }

  /** How many entries before `i` have a child, up to two, and which one if it is one. */
  ghost predicate Counted(g: Geometry, node: Node, i: nat, valid: nat, validPtr: nat) {
    && i <= |node|
    && (valid == 0 ==> forall k :: 0 <= k < i ==> node[k].ptr == g.nil)
    && (valid == 1 ==> validPtr < i && node[validPtr].ptr != g.nil
                       && forall k :: 0 <= k < i && k != validPtr ==> node[k].ptr == g.nil)
    && (valid > 1 ==> exists j, k :: 0 <= j < k < i && node[j].ptr != g.nil && node[k].ptr != g.nil)
  }

  lemma ScanStart(g: Geometry, nodes: seq<Node>, labels: seq<Label>, e: Entry, h: nat, b: nat)
    requires 0 < g.fanout && TreeOk(g, nodes, labels) && EntryOk(g, labels, e, h, b) && e.skip == 1 && e.ptr != g.nil
    requires PlainInside(g, nodes, labels, h, b)
    ensures 0 < h && e.ptr < |nodes| && labels[e.ptr] == Label(h - 1, b) && Plain(nodes[e.ptr])
    ensures InScan(g, nodes, nodes, labels, e.ptr, 0) && Counted(g, nodes[e.ptr], 0, 0, g.fanout)
  {
    var l := labels[e.ptr];
    assert NodeOk(g, labels, nodes[e.ptr], l);
    forall k | 0 <= k < g.fanout
      ensures PlainInside(g, nodes, labels, l.lev, EntryBase(g.fanout, l.lev, l.base, k))
    {
      forall m | 0 <= m < |nodes| && Inside(g, labels[m], l.lev, EntryBase(g.fanout, l.lev, l.base, k))
        ensures Plain(nodes[m])
      {
        InsideChild(g, labels[m], l.lev, l.base, k);
      }
    }
  }

  /** Entry `i` is compacted to `c`, with `n1` the nodes before it is stored. */
  lemma ScanStep(g: Geometry, n0: seq<Node>, nodes: seq<Node>, labels: seq<Label>, q: nat, i: nat, n1: seq<Node>,
                 c: Entry)
    requires InScan(g, n0, nodes, labels, q, i) && i < g.fanout
    requires var h := labels[q].lev; var b := EntryBase(g.fanout, h, labels[q].base, i);
             && TreeOk(g, n1, labels) && EntryOk(g, labels, c, h, b)
             && Framed(g, nodes, labels, n1, labels, h, b)
             && Compacted(g, nodes, nodes[q][i], n1, c, h, b)
    ensures q < |n1| && n1[q] == nodes[q] && |n1[q]| == g.fanout
    ensures InScan(g, n0, n1[q := n1[q][i := c]], labels, q, i + 1)
  {
    var l := labels[q];
    var b := EntryBase(g.fanout, l.lev, l.base, i);
    assert NodeOk(g, labels, nodes[q], l);
    assert !Inside(g, l, l.lev, b);
    var n2 := n1[q := n1[q][i := c]];
    ChildTreeOk(g, n1, labels, q, i, labels, c);
    ChildCompacted(g, nodes, labels, q, i, n1, c);
    CompactedThen(g, n0, Entry(1, q), nodes, Entry(1, q), n2, Entry(1, q), l.lev + 1, l.base);
    ScanFrame(g, n0, nodes, labels, q, i, n1, c);
  }

  lemma ScanFrame(g: Geometry, n0: seq<Node>, nodes: seq<Node>, labels: seq<Label>, q: nat, i: nat, n1: seq<Node>,
                  c: Entry)
    requires InScan(g, n0, nodes, labels, q, i) && i < g.fanout && |n1| == |nodes| && n1[q] == nodes[q]
    requires NodeOk(g, labels, nodes[q], labels[q])
    requires Framed(g, nodes, labels, n1, labels, labels[q].lev, EntryBase(g.fanout, labels[q].lev, labels[q].base, i))
    ensures Framed(g, n0, labels, n1[q := n1[q][i := c]], labels, labels[q].lev + 1, labels[q].base)
    ensures forall k :: i + 1 <= k < g.fanout ==>
              PlainInside(g, n1[q := n1[q][i := c]], labels, labels[q].lev,
                          EntryBase(g.fanout, labels[q].lev, labels[q].base, k))
  {
    var l := labels[q];
    var b := EntryBase(g.fanout, l.lev, l.base, i);
    var n2 := n1[q := n1[q][i := c]];
    forall m | 0 <= m < |labels| && !Inside(g, labels[m], l.lev + 1, l.base)
      ensures n2[m] == n0[m]
    {
      if Inside(g, labels[m], l.lev, b) {
        InsideChild(g, labels[m], l.lev, l.base, i);
      }
    }
    forall k | i + 1 <= k < g.fanout
      ensures PlainInside(g, n2, labels, l.lev, EntryBase(g.fanout, l.lev, l.base, k))
    {
      forall m | 0 <= m < |n2| && Inside(g, labels[m], l.lev, EntryBase(g.fanout, l.lev, l.base, k))
        ensures Plain(n2[m])
      {
        OutsideSibling(g, labels[m], l.lev, l.base, k, i);
        assert PlainInside(g, nodes, labels, l.lev, EntryBase(g.fanout, l.lev, l.base, k));
      }
    }
  }

  /** Leaving entry `i` as it is. */
  lemma ScanSkip(g: Geometry, n0: seq<Node>, nodes: seq<Node>, labels: seq<Label>, q: nat, i: nat)
    requires InScan(g, n0, nodes, labels, q, i) && i < g.fanout
    ensures InScan(g, n0, nodes, labels, q, i + 1)
  {
  }

  /** What compacting entry `i` may rely on. */
  lemma ScanReady(g: Geometry, n0: seq<Node>, nodes: seq<Node>, labels: seq<Label>, q: nat, i: nat)
    requires InScan(g, n0, nodes, labels, q, i) && i < g.fanout && Plain(n0[q])
    ensures nodes[q][i].skip <= 1 && TreeOk(g, nodes, labels)
    ensures var h := labels[q].lev; var b := EntryBase(g.fanout, h, labels[q].base, i);
            EntryOk(g, labels, nodes[q][i], h, b) && PlainInside(g, nodes, labels, h, b)
  {
    assert NodeOk(g, labels, nodes[q], labels[q]);
  }

  /** After the loop: keeping the entry, or folding it over its only child. */
  lemma ScanDone(g: Geometry, n0: seq<Node>, nodes: seq<Node>, labels: seq<Label>, q: nat, valid: nat, validPtr: nat)
    requires 2 <= g.fanout && InScan(g, n0, nodes, labels, q, g.fanout)
    requires Counted(g, nodes[q], g.fanout, valid, validPtr)
    ensures var h := labels[q].lev + 1; var b := labels[q].base;
            && TreeOk(g, nodes, labels) && Framed(g, n0, labels, nodes, labels, h, b)
            && EntryOk(g, labels, Entry(1, q), h, b)
            && Compacted(g, n0, Entry(1, q), nodes, Entry(1, q), h, b)
    ensures valid == 1 ==> validPtr < g.fanout && nodes[q][validPtr].ptr != g.nil
    ensures valid == 1 ==> var h := labels[q].lev + 1; var b := labels[q].base; var c := Folded(nodes[q][validPtr]);
            EntryOk(g, labels, c, h, b) && Compacted(g, n0, Entry(1, q), nodes, c, h, b)
  {
    assert NodeOk(g, labels, nodes[q], labels[q]);
    if valid == 1 {
      FoldCompacted(g, nodes, labels, q, validPtr);
      CompactedThen(g, n0, Entry(1, q), nodes, Entry(1, q), nodes, Folded(nodes[q][validPtr]),
                    labels[q].lev + 1, labels[q].base);
    }
  }

  /** Counting entry `i`, which has a child. */
  lemma CountChild(g: Geometry, node: Node, node': Node, i: nat, valid: nat, validPtr: nat)
    requires Counted(g, node, i, valid, validPtr) && i < |node| == |node'|
    requires node'[i].ptr != g.nil && forall k :: 0 <= k < i ==> node'[k] == node[k]
    ensures Counted(g, node', i + 1, valid + 1, i)
  {
    if valid == 1 {
      assert node'[validPtr].ptr != g.nil && validPtr < i;
    } else if valid > 1 {
      var j, k :| 0 <= j < k < i && node[j].ptr != g.nil && node[k].ptr != g.nil;
      assert node'[j].ptr != g.nil && node'[k].ptr != g.nil;
    }
  }

  // Compaction leaves nothing to fold.

  /** No entry from `e` down could be folded over an only child within the limit of seven levels. */
  ghost predicate Tight(g: Geometry, nodes: seq<Node>, e: Entry, h: nat)
    decreases h
  {
    || e.skip == 0 || h < e.skip || e.ptr == g.nil || |nodes| <= e.ptr
    || (&& (forall j: nat :: j < |nodes[e.ptr]| ==> Tight(g, nodes, nodes[e.ptr][j], h - e.skip))
        && forall j: nat :: OnlyChild(g, nodes[e.ptr], j) ==> e.skip + nodes[e.ptr][j].skip >= 8)
  }

  /** Tightness depends only on the nodes inside the entry's range. */
  lemma {:induction false} TightFrame(g: Geometry, nodes: seq<Node>, labels: seq<Label>, nodes': seq<Node>, e: Entry,
                                      h: nat, b: nat)
    requires TreeOk(g, nodes, labels) && 0 < g.fanout && |nodes| <= |nodes'| && EntryOk(g, labels, e, h, b)
    requires forall m :: 0 <= m < |nodes| && Inside(g, labels[m], h, b) ==> nodes'[m] == nodes[m]
    requires Tight(g, nodes, e, h)
    ensures Tight(g, nodes', e, h)
    decreases h
  {
    if e.skip != 0 && e.ptr != g.nil {
      var l := labels[e.ptr];
      assert NodeOk(g, labels, nodes[e.ptr], l);
      forall j: nat | j < |nodes'[e.ptr]| ensures Tight(g, nodes', nodes'[e.ptr][j], h - e.skip) {
        var c := EntryBase(g.fanout, l.lev, l.base, j);
        EntryInNode(g.fanout, l.lev, l.base, j);
        assert EntryOk(g, labels, nodes[e.ptr][j], l.lev, c);
        TightFrame(g, nodes, labels, nodes', nodes[e.ptr][j], l.lev, c);
      }
    }
  }

  /** The entries before `i` of node `q` are tight. */
  ghost predicate TightScan(g: Geometry, nodes: seq<Node>, q: nat, lev: nat, i: nat)
    requires q < |nodes|
  {
    i <= |nodes[q]| && forall k: nat :: k < i ==> Tight(g, nodes, nodes[q][k], lev)
  }

  lemma TightSkip(g: Geometry, nodes: seq<Node>, q: nat, lev: nat, i: nat)
    requires q < |nodes| && TightScan(g, nodes, q, lev, i) && i < |nodes[q]|
    requires nodes[q][i].skip == 0 || nodes[q][i].ptr == g.nil
    ensures TightScan(g, nodes, q, lev, i + 1)
  {
  }

  /** Entry `i` is compacted to the tight entry `c`, with `n1` the nodes before it is stored. */
  lemma TightStep(g: Geometry, nodes: seq<Node>, labels: seq<Label>, q: nat, i: nat, n1: seq<Node>, c: Entry)
    requires 0 < g.fanout && TreeOk(g, nodes, labels) && TreeOk(g, n1, labels) && q < |nodes| && i < g.fanout
    requires n1[q] == nodes[q] && |nodes[q]| == g.fanout
    requires var h := labels[q].lev; var b := EntryBase(g.fanout, h, labels[q].base, i);
             EntryOk(g, labels, c, h, b) && Framed(g, nodes, labels, n1, labels, h, b)
    requires TightScan(g, nodes, q, labels[q].lev, i) && Tight(g, n1, c, labels[q].lev)
    ensures TightScan(g, n1[q := n1[q][i := c]], q, labels[q].lev, i + 1)
  {
    hide Tight;
    var l := labels[q];
    var n2 := n1[q := n1[q][i := c]];
    assert NodeOk(g, labels, nodes[q], l);
    forall k: nat | k < i + 1 ensures Tight(g, n2, n2[q][k], l.lev) {
      var b := EntryBase(g.fanout, l.lev, l.base, k);
      if k == i {
        TightFrame(g, n1, labels, n2, c, l.lev, b);
      } else {
        assert EntryOk(g, labels, nodes[q][k], l.lev, b);
        forall m | 0 <= m < |nodes| && Inside(g, labels[m], l.lev, b) ensures n2[m] == nodes[m] {
          OutsideSibling(g, labels[m], l.lev, l.base, k, i);
        }
        TightFrame(g, nodes, labels, n2, nodes[q][k], l.lev, b);
      }
    }
  }

  /** What the recursion and the loop leave of the tree, for the next lemma. */
  lemma TightStore(g: Geometry, n0: seq<Node>, nodes: seq<Node>, labels: seq<Label>, q: nat, i: nat, n1: seq<Node>,
                   c: Entry)
    requires InScan(g, n0, nodes, labels, q, i) && i < g.fanout && TreeOk(g, n1, labels)
    requires var h := labels[q].lev; var b := EntryBase(g.fanout, h, labels[q].base, i);
             EntryOk(g, labels, c, h, b) && Framed(g, nodes, labels, n1, labels, h, b)
    requires q < |n1| && n1[q] == nodes[q]
    requires TightScan(g, nodes, q, labels[q].lev, i) && Tight(g, n1, c, labels[q].lev)
    ensures TightScan(g, n1[q := n1[q][i := c]], q, labels[q].lev, i + 1)
  {
    hide TreeOk, EntryOk, Tight, TightScan, Framed, Compacted;
    TightStep(g, nodes, labels, q, i, n1, c);
  }

  /** A node that has no only child, or one too deep to fold over. */
  lemma TightKept(g: Geometry, nodes: seq<Node>, q: nat, h: nat, valid: nat, validPtr: nat)
    requires 0 < h && q < |nodes| && TightScan(g, nodes, q, h - 1, |nodes[q]|)
    requires Counted(g, nodes[q], |nodes[q]|, valid, validPtr)
    requires valid == 1 ==> 1 + nodes[q][validPtr].skip >= 8
    ensures Tight(g, nodes, Entry(1, q), h)
  {
    hide Tight;
    forall j: nat | OnlyChild(g, nodes[q], j) ensures 1 + nodes[q][j].skip >= 8 {
      assert valid == 1 && j == validPtr;
    }
    TightNode(g, nodes, q, h);
  }

  lemma TightChild(g: Geometry, nodes: seq<Node>, q: nat, lev: nat, k: nat)
    requires q < |nodes| && TightScan(g, nodes, q, lev, |nodes[q]|) && k < |nodes[q]|
    ensures Tight(g, nodes, nodes[q][k], lev)
  {
  }

  lemma TightNil(g: Geometry, nodes: seq<Node>, e: Entry, h: nat)
    requires e.ptr == g.nil
    ensures Tight(g, nodes, e, h)
  {
  }

  lemma TightNone(g: Geometry, nodes: seq<Node>, q: nat, lev: nat)
    requires q < |nodes|
    ensures TightScan(g, nodes, q, lev, 0)
  {
  }

  lemma TightNode(g: Geometry, nodes: seq<Node>, q: nat, h: nat)
    requires 0 < h && q < |nodes| && (forall j: nat :: j < |nodes[q]| ==> Tight(g, nodes, nodes[q][j], h - 1))
    requires forall j: nat :: OnlyChild(g, nodes[q], j) ==> 1 + nodes[q][j].skip >= 8
    ensures Tight(g, nodes, Entry(1, q), h)
  {
  }

  /** An entry folded over a tight one is tight. */
  lemma TightFolded(g: Geometry, nodes: seq<Node>, c: Entry, h: nat)
    requires 0 < h && Tight(g, nodes, c, h - 1)
    ensures Tight(g, nodes, Folded(c), h)
  {
    hide OnlyChild;
  }

  /** phys_page_compact. The entry that `lp` points to is passed in and handed back. */
  method Compact(pm: PhysPageMap, e: Entry, ghost h: nat, ghost b: nat) returns (e': Entry)
    requires pm.Valid() && EntryOk(pm.g, pm.labels, e, h, b) && e.skip == 1
    requires PlainInside(pm.g, pm.nodes, pm.labels, h, b)
    modifies pm`nodes
    decreases h
    ensures pm.Valid() && EntryOk(pm.g, pm.labels, e', h, b)
    ensures Framed(pm.g, old(pm.nodes), pm.labels, pm.nodes, pm.labels, h, b)
    ensures Compacted(pm.g, old(pm.nodes), e, pm.nodes, e', h, b)
    ensures e'.ptr == pm.g.nil <==> e.ptr == pm.g.nil
    ensures Tight(pm.g, pm.nodes, e', h)
  {
    hide InScan, Counted, Compacted, TreeOk, EntryOk, Framed, PlainInside, EntryBase, Span, Tight, TightScan;
    var g := pm.g;
    ghost var labels := pm.labels;
    e' := e;
    if e.ptr == g.nil {
      NothingCompacted(g, pm.nodes, labels, e, h, b);
      TightNil(g, pm.nodes, e, h);
      return;
    }
    ghost var n0 := pm.nodes;
    var q := e.ptr;
    var valid: nat, validPtr: nat := 0, g.fanout;
    ScanStart(g, n0, labels, e, h, b);
    TightNone(g, n0, q, h - 1);
    var i: nat := 0;
    while i < g.fanout
      invariant i <= g.fanout && labels == pm.labels && q < |pm.nodes| && |pm.nodes[q]| == g.fanout
      invariant InScan(g, n0, pm.nodes, labels, q, i)
      invariant Counted(g, pm.nodes[q], i, valid, validPtr) && TightScan(g, pm.nodes, q, h - 1, i)
      decreases g.fanout - i
    {
      if pm.nodes[q][i].ptr != g.nil {
        ghost var n1 := pm.nodes;
        if pm.nodes[q][i].skip != 0 {
          ScanReady(g, n0, pm.nodes, labels, q, i);
          var c := Compact(pm, pm.nodes[q][i], h - 1, EntryBase(g.fanout, h - 1, b, i));
          ScanStep(g, n0, n1, labels, q, i, pm.nodes, c);
          TightStore(g, n0, n1, labels, q, i, pm.nodes, c);
          pm.nodes := pm.nodes[q := pm.nodes[q][i := c]];
        } else {
          ScanSkip(g, n0, pm.nodes, labels, q, i);
          TightSkip(g, pm.nodes, q, h - 1, i);
        }
        CountChild(g, n1[q], pm.nodes[q], i, valid, validPtr);
        validPtr := i;
        valid := valid + 1;
      } else {
        ScanSkip(g, n0, pm.nodes, labels, q, i);
        TightSkip(g, pm.nodes, q, h - 1, i);
        CountNothing(g, pm.nodes[q], i, valid, validPtr);
      }
      i := i + 1;
    }
    ScanDone(g, n0, pm.nodes, labels, q, valid, validPtr);
    if valid != 1 {
      TightKept(g, pm.nodes, q, h, valid, validPtr);
      return;
    }
    var c := pm.nodes[q][validPtr];
    if e.skip + c.skip >= 8 {
      TightKept(g, pm.nodes, q, h, valid, validPtr);
      return;
    }
    TightChild(g, pm.nodes, q, h - 1, validPtr);
    TightFolded(g, pm.nodes, c, h);
    e' := e'.(ptr := c.ptr);
    if c.skip == 0 {
      e' := e'.(skip := 0);
    } else {
      e' := e'.(skip := e'.skip + c.skip);
    }
  }

  lemma CountNothing(g: Geometry, node: Node, i: nat, valid: nat, validPtr: nat)
    requires Counted(g, node, i, valid, validPtr) && i < |node| && node[i].ptr == g.nil
    ensures Counted(g, node, i + 1, valid, validPtr)
  {
  }

  lemma NothingCompacted(g: Geometry, nodes: seq<Node>, labels: seq<Label>, e: Entry, h: nat, b: nat)
    requires 0 < g.fanout && TreeOk(g, nodes, labels)
    ensures Framed(g, nodes, labels, nodes, labels, h, b) && Compacted(g, nodes, e, nodes, e, h, b)
  {
  }
}
