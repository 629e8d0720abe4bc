/** The radix tree of physical pages: entries, nodes, the lookup walk, and the
    arithmetic of the index ranges that entries stand for (qemu/exec.c). */
module RadixTree {
  import opened Arithmetic

  /** The sizes the tree is built from: `fanout` is P_L2_SIZE, `levels` is
      P_L2_LEVELS, `pageSize` is TARGET_PAGE_SIZE, `space` is 2^ADDR_SPACE_BITS
      and `nil` is PHYS_MAP_NODE_NIL. */
  datatype Geometry = Geometry(fanout: nat, levels: nat, pageSize: nat, space: nat, nil: nat) {
    ghost predicate Valid() {
      && 2 <= fanout && 1 <= levels
      && 4 < pageSize && space % pageSize == 0 && 0 < space <= pageSize * Span(fanout, levels)
      && pageSize * (2 * levels) < nil
    }
  }

  const UNASSIGNED: nat := 0

  /** A PhysPageEntry: `skip == 0` marks a leaf, whose `ptr` is a section number;
      otherwise `ptr` is a node number `skip` levels further down. */
  datatype Entry = Entry(skip: nat, ptr: nat)

  type Node = seq<Entry>

  /** Number of pages that an entry at height `h` stands for. */
  function Span(fanout: nat, h: nat): (s: nat)
    ensures 0 < fanout ==> 0 < s
  {
    if h == 0 then 1 else fanout * Span(fanout, h - 1)
  }

  /** The index digit that selects an entry of a node at level `lev`. */
  function Digit(fanout: nat, lev: nat, p: nat): (i: nat)
    requires 0 < fanout
    ensures i < fanout
  {
    (p / Span(fanout, lev)) % fanout
  }

  /** Start of the range of entry `i` of a node at level `lev` that starts at `base`. */
  function EntryBase(fanout: nat, lev: nat, base: nat, i: nat): nat {
    base + i * Span(fanout, lev)
  }

  ghost predicate Contains(fanout: nat, h: nat, b: nat, p: nat) {
    b <= p < b + Span(fanout, h)
  }

  /** The digit of a page of a node's range names the one entry whose range holds it. */
  lemma DigitSelects(fanout: nat, lev: nat, base: nat, p: nat)
    requires 0 < fanout && base % Span(fanout, lev + 1) == 0
    requires Contains(fanout, lev + 1, base, p)
    ensures Contains(fanout, lev, EntryBase(fanout, lev, base, Digit(fanout, lev, p)), p)
  {
    var s := Span(fanout, lev);
    var r := p - base;
    var k := base / Span(fanout, lev + 1);
    MultipleOf(base, Span(fanout, lev + 1));
    MulShuffle(fanout, s, k);
    DivBound(r, s, fanout);
    DigitArithmetic(s, fanout, k, r);
    DivRange(r, s);
  }

  lemma DigitArithmetic(s: nat, fanout: nat, k: nat, r: nat)
    requires 0 < fanout && 0 < s && r / s < fanout
    ensures ((s * (fanout * k) + r) / s) % fanout == r / s
  {
    var fk := fanout * k;
    DivAddMultiple(r, s, fk);
    SmallMod(r / s, fanout, k);
  }

  /** A page in the range of entry `i` has `i` as its digit. */
  lemma DigitUnique(fanout: nat, lev: nat, base: nat, i: nat, p: nat)
    requires 0 < fanout && base % Span(fanout, lev + 1) == 0 && i < fanout
    requires Contains(fanout, lev, EntryBase(fanout, lev, base, i), p)
    ensures Contains(fanout, lev + 1, base, p)
    ensures Digit(fanout, lev, p) == i
  {
    var s := Span(fanout, lev);
    EntryInNode(fanout, lev, base, i);
    DigitSelects(fanout, lev, base, p);
    var d := Digit(fanout, lev, p);
    if d < i {
      MulStep(d, i, s);
    } else if i < d {
      MulStep(i, d, s);
    }
  }

  /** The range of an entry is aligned and lies within the range of its node. */
  lemma EntryInNode(fanout: nat, lev: nat, base: nat, i: nat)
    requires 0 < fanout && base % Span(fanout, lev + 1) == 0 && i < fanout
    ensures base <= EntryBase(fanout, lev, base, i)
    ensures EntryBase(fanout, lev, base, i) + Span(fanout, lev) <= base + Span(fanout, lev + 1)
    ensures 0 < Span(fanout, lev) && EntryBase(fanout, lev, base, i) % Span(fanout, lev) == 0
  {
    var s := Span(fanout, lev);
    MulStep(i, fanout, s);
    var k := base / (fanout * s);
    assert base == (fanout * s) * k;
    MulShuffle(fanout, s, k);
    assert base + i * s == s * (fanout * k + i) by { MulSum(s, fanout * k, i); }
    ModOfMultiple(s, fanout * k + i);
  }

  /** Entries of one node stand for disjoint ranges. */
  lemma EntriesDisjoint(fanout: nat, lev: nat, base: nat, i: nat, j: nat)
    requires i < j
    ensures EntryBase(fanout, lev, base, i) + Span(fanout, lev) <= EntryBase(fanout, lev, base, j)
  {
    MulStep(i, j, Span(fanout, lev));
  }

  /** What phys_page_find's loop reads: the section number reached from entry `e`,
      whose range has height `h`, for page index `p`. */
  function Walk(g: Geometry, nodes: seq<Node>, e: Entry, h: nat, p: nat): nat
    requires 0 < g.fanout
    decreases h
  {
    if e.skip == 0 || h < e.skip then e.ptr
    else if e.ptr == g.nil || |nodes| <= e.ptr || |nodes[e.ptr]| != g.fanout then UNASSIGNED
    else
      var lev := h - e.skip;
      Walk(g, nodes, nodes[e.ptr][Digit(g.fanout, lev, p)], lev, p)
  }

  /** Where a node sits: its level and the first page of its range. */
  datatype Label = Label(lev: nat, base: nat)

  /** The label's range is properly below an entry at height `h` that starts at `b`. */
  ghost predicate Inside(g: Geometry, l: Label, h: nat, b: nat) {
    l.lev < h && b <= l.base && l.base + Span(g.fanout, l.lev + 1) <= b + Span(g.fanout, h)
  }

  /** Entry `e` is well formed as an entry of height `h` that starts at `b`. */
  ghost predicate EntryOk(g: Geometry, labels: seq<Label>, e: Entry, h: nat, b: nat) {
    if e.skip == 0 then e.ptr < g.nil && (0 < h ==> e.ptr != UNASSIGNED)
    else
      && e.skip <= h
      && (e.ptr == g.nil
          || (e.ptr < |labels| && labels[e.ptr].lev == h - e.skip && Inside(g, labels[e.ptr], h, b)))
  }

  ghost predicate NodeOk(g: Geometry, labels: seq<Label>, node: Node, l: Label) {
    && 0 < g.fanout
    && l.lev < g.levels && |node| == g.fanout && l.base % Span(g.fanout, l.lev + 1) == 0
    && forall i :: 0 <= i < |node| ==> EntryOk(g, labels, node[i], l.lev, EntryBase(g.fanout, l.lev, l.base, i))
  }

  ghost predicate TreeOk(g: Geometry, nodes: seq<Node>, labels: seq<Label>) {
    && |nodes| == |labels| <= g.nil
    && forall n :: 0 <= n < |nodes| ==> NodeOk(g, labels, nodes[n], labels[n])
  }

  /** No entry of the node has been compacted. */
  ghost predicate Plain(node: Node) {
    forall i :: 0 <= i < |node| ==> node[i].skip <= 1
  }

  /** Only nodes inside the range of height `h` at `b` differ, and only such nodes are new. */
  ghost predicate Framed(g: Geometry, nodes: seq<Node>, labels: seq<Label>,
                         nodes': seq<Node>, labels': seq<Label>, h: nat, b: nat)
  {
    && |nodes| == |labels| <= |nodes'| == |labels'|
    && (forall m :: 0 <= m < |labels| ==> labels'[m] == labels[m])
    && (forall m :: 0 <= m < |labels| && !Inside(g, labels[m], h, b) ==> nodes'[m] == nodes[m])
    && (forall m :: |labels| <= m < |labels'| ==> Inside(g, labels'[m], h, b))
  }

  /** A walk from an entry reads only the nodes inside that entry's range. */
  lemma {:induction false} WalkFrame(g: Geometry, nodes: seq<Node>, labels: seq<Label>,
                                     nodes': seq<Node>, e: Entry, h: nat, b: nat, p: nat)
    requires TreeOk(g, nodes, labels) && 0 < g.fanout && |nodes| <= |nodes'|
    requires EntryOk(g, labels, e, h, b)
    requires forall m :: 0 <= m < |nodes| && Inside(g, labels[m], h, b) ==> nodes'[m] == nodes[m]
    ensures Walk(g, nodes', e, h, p) == Walk(g, nodes, e, h, p)
    decreases h
  {
    if e.skip != 0 && e.ptr != g.nil {
      var l := labels[e.ptr];
      assert NodeOk(g, labels, nodes[e.ptr], l);
      var i := Digit(g.fanout, l.lev, p);
      var c := EntryBase(g.fanout, l.lev, l.base, i);
      EntryInNode(g.fanout, l.lev, l.base, i);
      assert EntryOk(g, labels, nodes[e.ptr][i], l.lev, c);
      WalkFrame(g, nodes, labels, nodes', nodes[e.ptr][i], l.lev, c, p);
    }
  }

  /** A walk depends on the page index only through its digits below the entry's height. */
  lemma {:induction false} WalkLowDigits(g: Geometry, nodes: seq<Node>, e: Entry, h: nat, p: nat, q: nat)
    requires 0 < g.fanout && p % Span(g.fanout, h) == q % Span(g.fanout, h)
    ensures Walk(g, nodes, e, h, p) == Walk(g, nodes, e, h, q)
    decreases h
  {
    if e.skip != 0 && e.skip <= h && e.ptr != g.nil && e.ptr < |nodes| && |nodes[e.ptr]| == g.fanout {
      var lev := h - e.skip;
      DigitLow(g.fanout, lev, h, p, q);
      WalkLowDigits(g, nodes, nodes[e.ptr][Digit(g.fanout, lev, p)], lev, p, q);
    }
  }

  lemma {:induction false} DigitLow(fanout: nat, lev: nat, h: nat, p: nat, q: nat)
    requires 0 < fanout && lev < h && p % Span(fanout, h) == q % Span(fanout, h)
    ensures Digit(fanout, lev, p) == Digit(fanout, lev, q)
    ensures p % Span(fanout, lev) == q % Span(fanout, lev)
    decreases h - lev
  {
    if lev + 1 < h {
      DigitLow(fanout, lev + 1, h, p, q);
    }
    DigitOfRemainder(fanout, Span(fanout, lev), p);
    DigitOfRemainder(fanout, Span(fanout, lev), q);
  }

  /** Reducing modulo fanout * s keeps the digit above s and the remainder below it. */
  lemma DigitOfRemainder(fanout: nat, s: nat, p: nat)
    requires 0 < fanout && 0 < s && 0 < fanout * s
    ensures (p / s) % fanout == (p % (fanout * s)) / s
    ensures p % s == (p % (fanout * s)) % s
  {
    var m := fanout * s;
    var k, r := p / m, p % m;
    assert p == m * k + r;
    DivBound(r, s, fanout);
    DigitSplit(fanout, s, m, k, r);
  }

  lemma DigitSplit(fanout: nat, s: nat, m: nat, k: nat, r: nat)
    requires 0 < fanout && 0 < s && m == fanout * s && r / s < fanout
    ensures ((m * k + r) / s) % fanout == r / s
    ensures (m * k + r) % s == r % s
  {
    MulShuffle(fanout, s, k);
    DigitArithmetic(s, fanout, k, r);
    ModAddMultiple(r, s, fanout * k);
  }

}
