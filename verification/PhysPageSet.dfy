/** Building the radix tree: phys_map_node_reserve, phys_map_node_alloc,
    phys_page_set_level and phys_page_set (qemu/exec.c), proved to be an
    interval update of the flat map from pages to sections. */
module PhysPageSet {
  import opened Arithmetic
  import opened RadixTree

  ghost predicate AllPlain(nodes: seq<Node>) {
    forall n :: 0 <= n < |nodes| ==> Plain(nodes[n])
  }

  /** Going from (nodes, e) to (nodes', e') sets the pages lo..hi of the range of
      height `h` at `b` to `leaf` and changes no other page of it. */
  ghost predicate WalksUpdated(g: Geometry, nodes: seq<Node>, e: Entry, nodes': seq<Node>, e': Entry,
                               h: nat, b: nat, lo: nat, hi: nat, leaf: nat)
  {
    && 0 < g.fanout
    && forall p: nat :: Contains(g.fanout, h, b, p) ==>
         Walk(g, nodes', e', h, p) == if lo <= p < hi then leaf else Walk(g, nodes, e, h, p)
  }

  /** The new tree is well formed and differs only inside the range of height `h` at `b`. */
  ghost predicate ShapeKept(g: Geometry, nodes: seq<Node>, labels: seq<Label>,
                            nodes': seq<Node>, labels': seq<Label>, e': Entry, h: nat, b: nat)
  {
    && 0 < g.fanout
    && TreeOk(g, nodes', labels') && AllPlain(nodes')
    && EntryOk(g, labels', e', h, b) && e'.skip <= 1
    && Framed(g, nodes, labels, nodes', labels', h, b)
  }

  ghost predicate Updated(g: Geometry, nodes: seq<Node>, labels: seq<Label>, e: Entry,
                          nodes': seq<Node>, labels': seq<Label>, e': Entry,
                          h: nat, b: nat, lo: nat, hi: nat, leaf: nat)
  {
    && ShapeKept(g, nodes, labels, nodes', labels', e', h, b)
    && WalksUpdated(g, nodes, e, nodes', e', h, b, lo, hi, leaf)
  }

  lemma UpdatedThen(g: Geometry, n0: seq<Node>, l0: seq<Label>, e0: Entry, n1: seq<Node>, l1: seq<Label>, e1: Entry,
                    n2: seq<Node>, l2: seq<Label>, e2: Entry, h: nat, b: nat, lo: nat, mid: nat, hi: nat, leaf: nat)
    requires lo <= mid <= hi
    requires Updated(g, n0, l0, e0, n1, l1, e1, h, b, lo, mid, leaf)
    requires Updated(g, n1, l1, e1, n2, l2, e2, h, b, mid, hi, leaf)
    ensures Updated(g, n0, l0, e0, n2, l2, e2, h, b, lo, hi, leaf)
  {
    assert forall m :: |l1| <= m < |l2| ==> Inside(g, l2[m], h, b);
    assert forall m :: |l0| <= m < |l1| ==> l2[m] == l1[m];
  }

  /** What a child range contains, its node's range contains. */
  lemma InsideChild(g: Geometry, l: Label, lev: nat, base: nat, j: nat)
    requires 0 < g.fanout && base % Span(g.fanout, lev + 1) == 0 && j < g.fanout
    requires Inside(g, l, lev, EntryBase(g.fanout, lev, base, j))
    ensures Inside(g, l, lev + 1, base)
  {
    EntryInNode(g.fanout, lev, base, j);
  }

  /** Nodes inside one child are outside every other child. */
  lemma OutsideSibling(g: Geometry, l: Label, lev: nat, base: nat, i: nat, j: nat)
    requires 0 < g.fanout && i != j
    requires Inside(g, l, lev, EntryBase(g.fanout, lev, base, i))
    ensures !Inside(g, l, lev, EntryBase(g.fanout, lev, base, j))
  {
    if i < j {
      EntriesDisjoint(g.fanout, lev, base, i, j);
    } else {
      EntriesDisjoint(g.fanout, lev, base, j, i);
    }
  }

  /** Updating child `j` of node `q` leaves the tree well formed. */
  lemma ChildTreeOk(g: Geometry, nodes: seq<Node>, labels: seq<Label>, q: nat, j: nat, labels': seq<Label>, c: Entry)
    requires TreeOk(g, nodes, labels') && q < |labels| <= |labels'| && j < g.fanout
    requires forall m :: 0 <= m < |labels| ==> labels'[m] == labels[m]
    requires EntryOk(g, labels', c, labels[q].lev, EntryBase(g.fanout, labels[q].lev, labels[q].base, j))
    ensures |nodes[q]| == g.fanout
    ensures TreeOk(g, nodes[q := nodes[q][j := c]], labels')
  {
    var nodes' := nodes[q := nodes[q][j := c]];
    assert NodeOk(g, labels', nodes[q], labels'[q]);
    forall n | 0 <= n < |nodes'|
      ensures NodeOk(g, labels', nodes'[n], labels'[n])
    {
      assert NodeOk(g, labels', nodes[n], labels'[n]);
    }
  }

  /** Storing the new child `j` of node `q` confines the change to the node's range. */
  lemma ChildShape(g: Geometry, nodes: seq<Node>, labels: seq<Label>, q: nat, j: nat,
                   n1: seq<Node>, l1: seq<Label>, c: Entry)
    requires q < |nodes| == |labels| && j < g.fanout && q < g.nil
    requires NodeOk(g, labels, nodes[q], labels[q])
    requires ShapeKept(g, nodes, labels, n1, l1, c,
                       labels[q].lev, EntryBase(g.fanout, labels[q].lev, labels[q].base, j))
    ensures n1[q] == nodes[q]
    ensures ShapeKept(g, nodes, labels, n1[q := n1[q][j := c]], l1, Entry(1, q), labels[q].lev + 1, labels[q].base)
  {
    var l := labels[q];
    var b := EntryBase(g.fanout, l.lev, l.base, j);
    assert !Inside(g, l, l.lev, b);
    ChildTreeOk(g, n1, labels, q, j, l1, c);
    var n2 := n1[q := n1[q][j := c]];
    assert AllPlain(n2) by {
      assert Plain(n1[q]);
    }
    forall m | 0 <= m < |l1| && Inside(g, l1[m], l.lev, b)
      ensures Inside(g, l1[m], l.lev + 1, l.base)
    {
      InsideChild(g, l1[m], l.lev, l.base, j);
    }
  }

  /** Storing the new child `j` of node `q` updates the walks of the node's range. */
  lemma ChildWalks(g: Geometry, nodes: seq<Node>, labels: seq<Label>, q: nat, j: nat,
                   n1: seq<Node>, l1: seq<Label>, c: Entry, lo: nat, hi: nat, leaf: nat)
    requires TreeOk(g, nodes, labels) && q < |nodes| && j < g.fanout && q < g.nil && |nodes[q]| == g.fanout
    requires var h := labels[q].lev; var b := EntryBase(g.fanout, h, labels[q].base, j);
             && b <= lo <= hi <= b + Span(g.fanout, h)
             && Updated(g, nodes, labels, nodes[q][j], n1, l1, c, h, b, lo, hi, leaf)
    requires n1[q] == nodes[q]
    ensures WalksUpdated(g, nodes, Entry(1, q), n1[q := n1[q][j := c]], Entry(1, q),
                         labels[q].lev + 1, labels[q].base, lo, hi, leaf)
  {
    var l := labels[q];
    var h := l.lev + 1;
    var n2 := n1[q := n1[q][j := c]];
    hide Updated, Walk, TreeOk, Span;
    forall p: nat | Contains(g.fanout, h, l.base, p)
      ensures Walk(g, n2, Entry(1, q), h, p) == if lo <= p < hi then leaf else Walk(g, nodes, Entry(1, q), h, p)
    {
      ChildWalk(g, nodes, labels, q, j, n1, l1, c, lo, hi, leaf, p);
    }
  }

  lemma ChildWalk(g: Geometry, nodes: seq<Node>, labels: seq<Label>, q: nat, j: nat,
                  n1: seq<Node>, l1: seq<Label>, c: Entry, lo: nat, hi: nat, leaf: nat, p: nat)
    requires TreeOk(g, nodes, labels) && q < |nodes| && j < g.fanout && q < g.nil && |nodes[q]| == g.fanout
    requires var h := labels[q].lev; var b := EntryBase(g.fanout, h, labels[q].base, j);
             && b <= lo <= hi <= b + Span(g.fanout, h)
             && Updated(g, nodes, labels, nodes[q][j], n1, l1, c, h, b, lo, hi, leaf)
    requires n1[q] == nodes[q] && Contains(g.fanout, labels[q].lev + 1, labels[q].base, p)
    ensures Walk(g, n1[q := n1[q][j := c]], Entry(1, q), labels[q].lev + 1, p)
         == if lo <= p < hi then leaf else Walk(g, nodes, Entry(1, q), labels[q].lev + 1, p)
  {
    assert |n1| > q by {
      UpdatedFramed(g, nodes, labels, nodes[q][j], n1, l1, c, labels[q].lev,
                    EntryBase(g.fanout, labels[q].lev, labels[q].base, j), lo, hi, leaf);
    }
    hide Updated, Walk, TreeOk, NodeOk, EntryOk, Span, Digit, EntryBase, Contains;
    var l := labels[q];
    var node := n1[q][j := c];
    ChildSelected(g, nodes, labels, q, p);
    var i := Digit(g.fanout, l.lev, p);
    WalkThrough(g, nodes, q, l.lev + 1, p);
    WalkThrough(g, n1[q := node], q, l.lev + 1, p);
    if i == j {
      ChangedChild(g, nodes, labels, q, j, n1, l1, c, lo, hi, leaf, p);
    } else {
      UpdatedFramed(g, nodes, labels, nodes[q][j], n1, l1, c, l.lev, EntryBase(g.fanout, l.lev, l.base, j), lo, hi,
                    leaf);
      SiblingWalk(g, nodes, labels, q, i, j, n1, l1, node, p);
      SiblingPage(g, l.lev, l.base, i, j, p, lo, hi);
    }
  }

  /** The child that a page's digit selects, and where it starts. */
  lemma ChildSelected(g: Geometry, nodes: seq<Node>, labels: seq<Label>, q: nat, p: nat)
    requires TreeOk(g, nodes, labels) && q < |nodes| && 0 < g.fanout == |nodes[q]|
    requires Contains(g.fanout, labels[q].lev + 1, labels[q].base, p)
    ensures var l := labels[q]; var i := Digit(g.fanout, l.lev, p);
            && i < g.fanout && Contains(g.fanout, l.lev, EntryBase(g.fanout, l.lev, l.base, i), p)
            && EntryOk(g, labels, nodes[q][i], l.lev, EntryBase(g.fanout, l.lev, l.base, i))
  {
    assert NodeOk(g, labels, nodes[q], labels[q]);
    DigitSelects(g.fanout, labels[q].lev, labels[q].base, p);
  }

  lemma UpdatedFramed(g: Geometry, nodes: seq<Node>, labels: seq<Label>, e: Entry, n1: seq<Node>, l1: seq<Label>,
                      c: Entry,
                      h: nat, b: nat, lo: nat, hi: nat, leaf: nat)
    requires Updated(g, nodes, labels, e, n1, l1, c, h, b, lo, hi, leaf)
    ensures Framed(g, nodes, labels, n1, l1, h, b) && |nodes| <= |n1|
  {
  }

  /** A page below the changed child. */
  lemma ChangedChild(g: Geometry, nodes: seq<Node>, labels: seq<Label>, q: nat, j: nat,
                     n1: seq<Node>, l1: seq<Label>, c: Entry, lo: nat, hi: nat, leaf: nat, p: nat)
    requires TreeOk(g, nodes, labels) && q < |nodes| <= |n1| && j < |nodes[q]| && 0 < g.fanout && n1[q] == nodes[q]
    requires var h := labels[q].lev; var b := EntryBase(g.fanout, h, labels[q].base, j);
             && Contains(g.fanout, h, b, p)
             && Updated(g, nodes, labels, nodes[q][j], n1, l1, c, h, b, lo, hi, leaf)
    ensures Walk(g, n1[q := n1[q][j := c]], c, labels[q].lev, p)
         == if lo <= p < hi then leaf else Walk(g, nodes, nodes[q][j], labels[q].lev, p)
  {
    var l := labels[q];
    StoredWalk(g, n1, l1, q, n1[q][j := c], c, l.lev, EntryBase(g.fanout, l.lev, l.base, j), p);
  }

  /** A page of one child is not among the pages set in another. */
  lemma SiblingPage(g: Geometry, lev: nat, base: nat, i: nat, j: nat, p: nat, lo: nat, hi: nat)
    requires i != j && Contains(g.fanout, lev, EntryBase(g.fanout, lev, base, i), p)
    requires EntryBase(g.fanout, lev, base, j) <= lo <= hi <= EntryBase(g.fanout, lev, base, j) + Span(g.fanout, lev)
    ensures !(lo <= p < hi)
  {
    if i < j {
      EntriesDisjoint(g.fanout, lev, base, i, j);
    } else {
      EntriesDisjoint(g.fanout, lev, base, j, i);
    }
  }

  /** A change inside child `j` of node `q`, and in `q` itself, leaves walks from child `i` alone. */
  lemma SiblingWalk(g: Geometry, nodes: seq<Node>, labels: seq<Label>, q: nat, i: nat, j: nat,
                    n1: seq<Node>, l1: seq<Label>, node: Node, p: nat)
    requires TreeOk(g, nodes, labels) && 0 < g.fanout && q < |nodes| && i < |nodes[q]| && i != j
    requires var h := labels[q].lev;
             && Framed(g, nodes, labels, n1, l1, h, EntryBase(g.fanout, h, labels[q].base, j))
             && EntryOk(g, labels, nodes[q][i], h, EntryBase(g.fanout, h, labels[q].base, i))
    ensures Walk(g, n1[q := node], nodes[q][i], labels[q].lev, p) == Walk(g, nodes, nodes[q][i], labels[q].lev, p)
  {
    var l := labels[q];
    var a := EntryBase(g.fanout, l.lev, l.base, i);
    forall m | 0 <= m < |nodes| && Inside(g, labels[m], l.lev, a)
      ensures n1[q := node][m] == nodes[m]
    {
      OutsideSibling(g, labels[m], l.lev, l.base, i, j);
    }
    WalkFrame(g, nodes, labels, n1[q := node], nodes[q][i], l.lev, a, p);
  }

  /** Storing into a node does not disturb walks from entries at or below its level. */
  lemma StoredWalk(g: Geometry, nodes: seq<Node>, labels: seq<Label>, q: nat, node: Node, c: Entry, h: nat, b: nat,
                   p: nat)
    requires TreeOk(g, nodes, labels) && 0 < g.fanout && q < |nodes| && h <= labels[q].lev
    requires EntryOk(g, labels, c, h, b)
    ensures Walk(g, nodes[q := node], c, h, p) == Walk(g, nodes, c, h, p)
  {
    WalkFrame(g, nodes, labels, nodes[q := node], c, h, b, p);
  }

  /** How many nodes a call of phys_page_set_level at `level` may allocate: one path of
      nodes when the interval starts at, or runs to, an end of the range, else two. */
  ghost function AllocBound(g: Geometry, level: nat, b: nat, index: nat, nb: nat): nat {
    if index == b || b + Span(g.fanout, level + 1) <= index + nb then level + 1 else 2 * level + 1
  }

  /** Every page of [index, index + nb) within the range of height `h` at `b` is unassigned. */
  ghost predicate Unassigned(g: Geometry, nodes: seq<Node>, e: Entry, h: nat, b: nat, index: nat, nb: nat) {
    && 0 < g.fanout
    && forall p: nat :: Contains(g.fanout, h, b, p) && index <= p < index + nb ==> Walk(g, nodes, e, h, p) == UNASSIGNED
  }

  /** Walking through a plain entry is walking from the child its digit selects. */
  lemma WalkThrough(g: Geometry, nodes: seq<Node>, q: nat, h: nat, p: nat)
    requires 0 < g.fanout && q < |nodes| && q != g.nil && |nodes[q]| == g.fanout && 0 < h
    ensures Walk(g, nodes, Entry(1, q), h, p) == Walk(g, nodes, nodes[q][Digit(g.fanout, h - 1, p)], h - 1, p)
  {
  }

  /** The part of an unassigned interval that falls in child `j` is unassigned there. */
  lemma ChildUnassigned(g: Geometry, nodes: seq<Node>, labels: seq<Label>, q: nat, j: nat, index: nat, nb: nat)
    requires 0 < g.fanout && q < |nodes| == |labels| && q != g.nil && j < g.fanout
    requires NodeOk(g, labels, nodes[q], labels[q])
    requires Unassigned(g, nodes, Entry(1, q), labels[q].lev + 1, labels[q].base, index, nb)
    ensures var l := labels[q];
            Unassigned(g, nodes, nodes[q][j], l.lev, EntryBase(g.fanout, l.lev, l.base, j), index, nb)
  {
    var l := labels[q];
    var a := EntryBase(g.fanout, l.lev, l.base, j);
    forall p: nat | Contains(g.fanout, l.lev, a, p) && index <= p < index + nb
      ensures Walk(g, nodes, nodes[q][j], l.lev, p) == UNASSIGNED
    {
      DigitUnique(g.fanout, l.lev, l.base, j, p);
      assert Contains(g.fanout, l.lev + 1, l.base, p);
      WalkThrough(g, nodes, q, l.lev + 1, p);
    }
  }

  /** The rest of the interval is still unassigned after its first part was set. */
  lemma RestUnassigned(g: Geometry, n0: seq<Node>, e0: Entry, nodes: seq<Node>, e: Entry,
                       h: nat, b: nat, index: nat, nb: nat, index': nat, nb': nat, leaf: nat)
    requires Unassigned(g, n0, e0, h, b, index, nb)
    requires WalksUpdated(g, n0, e0, nodes, e, h, b, index, index', leaf)
    requires index <= index' && index' + nb' == index + nb
    ensures Unassigned(g, nodes, e, h, b, index', nb')
  {
  }

  /** Overwriting child `j` with a leaf, when the interval covers all of it. */
  lemma LeafChild(g: Geometry, nodes: seq<Node>, labels: seq<Label>, e: Entry, h: nat, b: nat, leaf: nat)
    requires 0 < g.fanout && TreeOk(g, nodes, labels) && AllPlain(nodes) && 0 < leaf < g.nil
    ensures Updated(g, nodes, labels, e, nodes, labels, Entry(0, leaf), h, b, b, b + Span(g.fanout, h), leaf)
  {
  }

  /** An aligned index within an aligned range of that size is its start. */
  lemma AlignedStart(s: nat, b: nat, x: nat)
    requires 0 < s && b % s == 0 && b <= x < b + s && x % s == 0
    ensures x == b
  {
    var k := b / s;
    MultipleOf(b, s);
    ModAddMultiple(x - b, s, k);
  }

  /** A freshly allocated node: every page of its range is unassigned. */
  function EmptyNode(g: Geometry, leaf: bool): Node {
    seq(g.fanout, i => if leaf then Entry(0, UNASSIGNED) else Entry(1, g.nil))
  }

  /** Hanging an empty node under an entry without one changes no page. */
  lemma AllocUpdated(g: Geometry, nodes: seq<Node>, labels: seq<Label>, level: nat, b: nat, x: nat, leaf: nat)
    requires 0 < g.fanout && TreeOk(g, nodes, labels) && AllPlain(nodes) && |nodes| < g.nil
    requires level < g.levels && b % Span(g.fanout, level + 1) == 0
    ensures Updated(g, nodes, labels, Entry(1, g.nil), nodes + [EmptyNode(g, level == 0)], labels + [Label(level, b)],
                    Entry(1, |nodes|), level + 1, b, x, x, leaf)
  {
    var node := EmptyNode(g, level == 0);
    var n1, l1 := nodes + [node], labels + [Label(level, b)];
    forall n | 0 <= n < |n1|
      ensures NodeOk(g, l1, n1[n], l1[n]) && Plain(n1[n])
    {
      if n < |nodes| {
        assert NodeOk(g, labels, nodes[n], labels[n]) && Plain(nodes[n]);
      }
    }
    var h := level + 1;
    forall p: nat | Contains(g.fanout, h, b, p)
      ensures Walk(g, n1, Entry(1, |nodes|), h, p) == UNASSIGNED
    {
      WalkThrough(g, n1, |nodes|, h, p);
    }
  }

  /** Where the walk over a node's entries stands before entry `j`: pages index..index' are
      set, `nb'` are left, and `grown` nodes were allocated. */
  ghost predicate Cursor(g: Geometry, level: nat, b: nat, index: nat, nb: nat,
                         j0: nat, j: nat, index': nat, nb': nat, grown: nat)
  {
    && j0 <= j <= g.fanout
    && index <= index' <= b + Span(g.fanout, level + 1) && index' + nb' == index + nb
    && (nb' > 0 && j < g.fanout ==> Contains(g.fanout, level, EntryBase(g.fanout, level, b, j), index'))
    && (nb' > 0 && j == g.fanout ==> index' == b + Span(g.fanout, level + 1))
    && (j == j0 ==> index' == index && grown <= 1)
    && (nb' > 0 && j > j0 ==>
          index' == EntryBase(g.fanout, level, b, j) && grown <= 1 + (if index == b then 0 else level))
    && (nb' == 0 ==> grown <= AllocBound(g, level, b, index, nb))
  }

  /** Nodes that handling entry `j` may allocate: none if it becomes a leaf. */
  ghost function ChildBound(g: Geometry, level: nat, c: nat, index: nat, nb: nat): nat {
    if (index == c && Span(g.fanout, level) <= nb) || level == 0 then 0 else AllocBound(g, level - 1, c, index, nb)
  }

  ghost function Upto(x: nat, y: nat): nat { if x <= y then x else y }

  lemma CursorStep(g: Geometry, level: nat, b: nat, index: nat, nb: nat,
                   j0: nat, j: nat, index': nat, nb': nat, grown: nat, index2: nat, more: nat)
    requires 0 < g.fanout && b % Span(g.fanout, level + 1) == 0
    requires Cursor(g, level, b, index, nb, j0, j, index', nb', grown) && nb' > 0 && j < g.fanout
    requires var c := EntryBase(g.fanout, level, b, j);
             && index2 == Upto(index' + nb', c + Span(g.fanout, level))
             && more <= ChildBound(g, level, c, index', nb')
    ensures index2 <= index + nb
    ensures Cursor(g, level, b, index, nb, j0, j + 1, index2, index + nb - index2, grown + more)
  {
    var c := EntryBase(g.fanout, level, b, j);
    var s := Span(g.fanout, level);
    EntryInNode(g.fanout, level, b, j);
    assert EntryBase(g.fanout, level, b, j + 1) == c + s by { NextEntry(g.fanout, level, b, j); }
    if j + 1 == g.fanout {
      assert c + s == b + Span(g.fanout, level + 1);
    }
    if j == j0 && index == b {
      assert index' == c;
    }
  }

  lemma NextEntry(fanout: nat, lev: nat, base: nat, i: nat)
    ensures EntryBase(fanout, lev, base, i + 1) == EntryBase(fanout, lev, base, i) + Span(fanout, lev)
  {
  }

  /** Handling entry `j` stays within the node budget of the whole call. */
  lemma CursorRoom(g: Geometry, level: nat, b: nat, index: nat, nb: nat,
                   j0: nat, j: nat, index': nat, nb': nat, grown: nat)
    requires 0 < g.fanout && b % Span(g.fanout, level + 1) == 0
    requires Cursor(g, level, b, index, nb, j0, j, index', nb', grown) && nb' > 0 && j < g.fanout
    ensures grown + ChildBound(g, level, EntryBase(g.fanout, level, b, j), index', nb')
            <= AllocBound(g, level, b, index, nb)
  {
    var c := EntryBase(g.fanout, level, b, j);
    CursorStep(g, level, b, index, nb, j0, j, index', nb', grown,
               Upto(index' + nb', c + Span(g.fanout, level)), ChildBound(g, level, c, index', nb'));
  }

  /** Keeping an entry as it is updates no page; its node is the one at the start of its range. */
  lemma SelfUpdated(g: Geometry, nodes: seq<Node>, labels: seq<Label>, e: Entry, level: nat, b: nat, x: nat, leaf: nat)
    requires 0 < g.fanout && TreeOk(g, nodes, labels) && AllPlain(nodes)
    requires EntryOk(g, labels, e, level + 1, b) && e.skip == 1 && e.ptr != g.nil
    ensures e.ptr < |labels| && labels[e.ptr] == Label(level, b)
    ensures Updated(g, nodes, labels, e, nodes, labels, e, level + 1, b, x, x, leaf)
  {
  }

  /** State of phys_page_set_level's loop over the entries of node `q`. */
  ghost predicate InLoop(g: Geometry, n0: seq<Node>, l0: seq<Label>, e: Entry, nodes: seq<Node>, labels: seq<Label>,
                         q: nat, level: nat, b: nat, index: nat, nb: nat,
                         j0: nat, j: nat, index': nat, nb': nat, leaf: nat)
  {
    && |n0| <= |nodes| == |labels| && q < |nodes| && q < g.nil && labels[q] == Label(level, b)
    && Cursor(g, level, b, index, nb, j0, j, index', nb', |nodes| - |n0|)
    && Updated(g, n0, l0, e, nodes, labels, Entry(1, q), level + 1, b, index, index', leaf)
  }

  lemma LoopStart(g: Geometry, n0: seq<Node>, l0: seq<Label>, e: Entry, nodes: seq<Node>, labels: seq<Label>,
                  q: nat, level: nat, b: nat, index: nat, nb: nat, leaf: nat)
    requires 0 < g.fanout && b % Span(g.fanout, level + 1) == 0 && Contains(g.fanout, level + 1, b, index) && 0 < nb
    requires |n0| <= |nodes| <= |n0| + 1 && q < |nodes| && q < g.nil && q < |labels| && labels[q] == Label(level, b)
    requires Updated(g, n0, l0, e, nodes, labels, Entry(1, q), level + 1, b, index, index, leaf)
    ensures var j := Digit(g.fanout, level, index);
            InLoop(g, n0, l0, e, nodes, labels, q, level, b, index, nb, j, j, index, nb, leaf)
  {
    DigitSelects(g.fanout, level, b, index);
  }

  lemma LoopReady(g: Geometry, n0: seq<Node>, l0: seq<Label>, e: Entry, nodes: seq<Node>, labels: seq<Label>,
                  q: nat, level: nat, b: nat, index: nat, nb: nat, j0: nat, j: nat, index': nat, nb': nat, leaf: nat)
    requires 0 < g.fanout && b % Span(g.fanout, level + 1) == 0 && 0 < nb' && j < g.fanout
    requires InLoop(g, n0, l0, e, nodes, labels, q, level, b, index, nb, j0, j, index', nb', leaf)
    requires Unassigned(g, n0, e, level + 1, b, index, nb)
    ensures TreeOk(g, nodes, labels) && AllPlain(nodes)
    ensures q < |nodes| && q < g.nil && labels[q] == Label(level, b)
    ensures Contains(g.fanout, level, EntryBase(g.fanout, level, b, j), index')
    ensures Unassigned(g, nodes, Entry(1, q), level + 1, b, index', nb')
    ensures |nodes| + ChildBound(g, level, EntryBase(g.fanout, level, b, j), index', nb')
         <= |n0| + AllocBound(g, level, b, index, nb)
  {
    CursorRoom(g, level, b, index, nb, j0, j, index', nb', |nodes| - |n0|);
    RestUnassigned(g, n0, e, nodes, Entry(1, q), level + 1, b, index, nb, index', nb', leaf);
  }

  lemma LoopNext(g: Geometry, n0: seq<Node>, l0: seq<Label>, e: Entry, nodes: seq<Node>, labels: seq<Label>,
                 q: nat, level: nat, b: nat, index: nat, nb: nat, j0: nat, j: nat, index': nat, nb': nat, leaf: nat,
                 n1: seq<Node>, l1: seq<Label>, index2: nat, nb2: nat)
    requires 0 < g.fanout && b % Span(g.fanout, level + 1) == 0 && 0 < nb' && j < g.fanout
    requires InLoop(g, n0, l0, e, nodes, labels, q, level, b, index, nb, j0, j, index', nb', leaf)
    requires Updated(g, nodes, labels, Entry(1, q), n1, l1, Entry(1, q), level + 1, b, index', index2, leaf)
    requires index2 == Upto(index' + nb', EntryBase(g.fanout, level, b, j) + Span(g.fanout, level))
    requires index2 + nb2 == index' + nb'
    requires |n1| <= |nodes| + ChildBound(g, level, EntryBase(g.fanout, level, b, j), index', nb')
    ensures InLoop(g, n0, l0, e, n1, l1, q, level, b, index, nb, j0, j + 1, index2, nb2, leaf)
  {
    UpdatedThen(g, n0, l0, e, nodes, labels, Entry(1, q), n1, l1, Entry(1, q), level + 1, b, index, index', index2,
                leaf);
    CursorStep(g, level, b, index, nb, j0, j, index', nb', |nodes| - |n0|, index2, |n1| - |nodes|);
  }

  lemma LoopDone(g: Geometry, n0: seq<Node>, l0: seq<Label>, e: Entry, nodes: seq<Node>, labels: seq<Label>,
                 q: nat, level: nat, b: nat, index: nat, nb: nat, j0: nat, j: nat, index': nat, nb': nat, leaf: nat)
    requires 0 < nb && j0 < g.fanout && b <= index && (nb' == 0 || j == g.fanout)
    requires InLoop(g, n0, l0, e, nodes, labels, q, level, b, index, nb, j0, j, index', nb', leaf)
    ensures index' == Upto(index + nb, b + Span(g.fanout, level + 1)) && index' + nb' == index + nb
    ensures TreeOk(g, nodes, labels)
    ensures Updated(g, n0, l0, e, nodes, labels, Entry(1, q), level + 1, b, index, index', leaf)
    ensures |n0| <= |nodes| <= |n0| + AllocBound(g, level, b, index, nb)
  {
  }

  /** What handling entry `j` of node `q` may rely on. */
  lemma EntryReady(g: Geometry, nodes: seq<Node>, labels: seq<Label>, q: nat, j: nat, index: nat, nb: nat)
    requires q < |nodes| && q < g.nil && TreeOk(g, nodes, labels) && AllPlain(nodes) && j < g.fanout
    requires Unassigned(g, nodes, Entry(1, q), labels[q].lev + 1, labels[q].base, index, nb) && 0 < nb
    requires var h := labels[q].lev; Contains(g.fanout, h, EntryBase(g.fanout, h, labels[q].base, j), index)
    ensures |nodes[q]| == g.fanout && labels[q].lev < g.levels
    ensures var h := labels[q].lev; var b := EntryBase(g.fanout, h, labels[q].base, j);
            && b % Span(g.fanout, h) == 0
            && EntryOk(g, labels, nodes[q][j], h, b)
            && Unassigned(g, nodes, nodes[q][j], h, b, index, nb)
            && (0 < h ==> nodes[q][j].skip == 1)
  {
    var l := labels[q];
    assert NodeOk(g, labels, nodes[q], l);
    EntryInNode(g.fanout, l.lev, l.base, j);
    ChildUnassigned(g, nodes, labels, q, j, index, nb);
    assert Plain(nodes[q]);
    assert Walk(g, nodes, nodes[q][j], l.lev, index) == UNASSIGNED;
  }

  /** Storing the new child `j` of node `q` updates the node's range. */
  lemma ChildUpdated(g: Geometry, nodes: seq<Node>, labels: seq<Label>, q: nat, j: nat,
                     n1: seq<Node>, l1: seq<Label>, c: Entry, lo: nat, hi: nat, leaf: nat)
    requires TreeOk(g, nodes, labels) && q < |nodes| && j < g.fanout && q < g.nil && |nodes[q]| == g.fanout
    requires var h := labels[q].lev; var b := EntryBase(g.fanout, h, labels[q].base, j);
             && b <= lo <= hi <= b + Span(g.fanout, h)
             && Updated(g, nodes, labels, nodes[q][j], n1, l1, c, h, b, lo, hi, leaf)
    ensures q < |n1| == |l1| && n1[q] == nodes[q] && l1[q] == labels[q] && TreeOk(g, n1[q := n1[q][j := c]], l1)
    ensures Updated(g, nodes, labels, Entry(1, q), n1[q := n1[q][j := c]], l1, Entry(1, q),
                    labels[q].lev + 1, labels[q].base, lo, hi, leaf)
  {
    assert NodeOk(g, labels, nodes[q], labels[q]);
    ChildShape(g, nodes, labels, q, j, n1, l1, c);
    ChildWalks(g, nodes, labels, q, j, n1, l1, c, lo, hi, leaf);
  }

  class PhysPageMap {
    const g: Geometry
    var nodes: seq<Node>
    var nodesAlloc: nat
    var allocHint: nat
    ghost var labels: seq<Label>

    ghost predicate Valid()
      reads this
    {
      g.Valid() && TreeOk(g, nodes, labels)
    }

    constructor (g: Geometry)
      requires g.Valid()
      ensures Valid() && this.g == g && nodes == []
    {
      this.g := g;
      nodes, labels := [], [];
      nodesAlloc := 0;
      allocHint := 16;
    }

    /** phys_map_node_reserve */
    method NodeReserve(n: nat)
      modifies this`nodesAlloc, this`allocHint
      ensures |nodes| + n <= nodesAlloc && old(nodesAlloc) <= nodesAlloc
    {
      if |nodes| + n > nodesAlloc {
        nodesAlloc := if nodesAlloc < allocHint then allocHint else nodesAlloc;
        nodesAlloc := if nodesAlloc < |nodes| + n then |nodes| + n else nodesAlloc;
        allocHint := nodesAlloc;
      }
    }

    /** phys_map_node_alloc; the two preconditions on |nodes| are its assertions. */
    method NodeAlloc(leaf: bool, ghost l: Label) returns (ret: nat)
      requires |nodes| != g.nil && |nodes| < nodesAlloc
      modifies this`nodes, this`labels
      ensures ret == old(|nodes|)
      ensures nodes == old(nodes) + [EmptyNode(g, leaf)] && labels == old(labels) + [l]
    {
      ret := |nodes|;
      var e := Entry(if leaf then 0 else 1, if leaf then UNASSIGNED else g.nil);
      var p: Node := [];
      for i := 0 to g.fanout
        invariant p == seq(i, k => e)
      {
        p := p + [e];
      }
      assert p == EmptyNode(g, leaf);
      nodes := nodes + [p];
      labels := labels + [l];
    }

    /** The head of phys_page_set_level: the node below the entry, allocated if there is none. */
    method EnterNode(e: Entry, ghost b: nat, level: nat, ghost x: nat, ghost leaf: nat) returns (e': Entry)
      requires Valid() && AllPlain(nodes)
      requires level < g.levels && b % Span(g.fanout, level + 1) == 0
      requires EntryOk(g, labels, e, level + 1, b) && e.skip == 1
      requires |nodes| < nodesAlloc && |nodes| < g.nil
      modifies this`nodes, this`labels
      ensures Valid() && old(|nodes|) <= |nodes| == |labels| <= old(|nodes|) + 1
      ensures e' == Entry(1, e'.ptr) && e'.ptr < |nodes| && e'.ptr < g.nil && labels[e'.ptr] == Label(level, b)
      ensures Updated(g, old(nodes), old(labels), e, nodes, labels, e', level + 1, b, x, x, leaf)
    {
      e' := e;
      if e.skip != 0 && e.ptr == g.nil {
        AllocUpdated(g, nodes, labels, level, b, x, leaf);
        var ret := NodeAlloc(level == 0, Label(level, b));
        e' := e.(ptr := ret);
      } else {
        SelfUpdated(g, nodes, labels, e, level, b, x, leaf);
      }
    }

    /** phys_page_set_level. The entry that `lp` points to is passed in and handed back;
        so are `*index` and `*nb`. */
    method SetLevel(e: Entry, ghost b: nat, index: nat, nb: nat, leaf: nat, level: nat)
      returns (e': Entry, index': nat, nb': nat)
      requires Valid() && AllPlain(nodes)
      requires level < g.levels && b % Span(g.fanout, level + 1) == 0
      requires EntryOk(g, labels, e, level + 1, b) && e.skip == 1
      requires Contains(g.fanout, level + 1, b, index) && 0 < nb && 0 < leaf < g.nil
      requires Unassigned(g, nodes, e, level + 1, b, index, nb)
      requires |nodes| + AllocBound(g, level, b, index, nb) <= nodesAlloc
      requires |nodes| + AllocBound(g, level, b, index, nb) <= g.nil
      modifies this`nodes, this`labels
      decreases level, 1
      ensures Valid()
      ensures index' == Upto(index + nb, b + Span(g.fanout, level + 1)) && index' + nb' == index + nb
      ensures e'.skip == 1
      ensures Updated(g, old(nodes), old(labels), e, nodes, labels, e', level + 1, b, index, index', leaf)
      ensures old(|nodes|) <= |nodes| <= old(|nodes|) + AllocBound(g, level, b, index, nb)
    {
      hide InLoop, Updated, Unassigned, TreeOk, EntryOk, AllPlain, Span, EntryBase, ChildBound, Upto;
      ghost var n0, l0 := nodes, labels;
      index', nb' := index, nb;
      e' := EnterNode(e, b, level, index, leaf);
      var q := e'.ptr;
      var j: nat := Digit(g.fanout, level, index);
      ghost var j0: nat := j;
      LoopStart(g, n0, l0, e, nodes, labels, q, level, b, index, nb, leaf);
      while nb' > 0 && j < g.fanout
        invariant j <= g.fanout
        invariant InLoop(g, n0, l0, e, nodes, labels, q, level, b, index, nb, j0, j, index', nb', leaf)
        decreases g.fanout - j
      {
        ghost var n1, l1, x, y := nodes, labels, index', nb';
        LoopReady(g, n0, l0, e, nodes, labels, q, level, b, index, nb, j0, j, index', nb', leaf);
        index', nb' := SetEntry(q, j, b, index', nb', leaf, level);
        LoopNext(g, n0, l0, e, n1, l1, q, level, b, index, nb, j0, j, x, y, leaf, nodes, labels, index', nb');
        j := j + 1;
      }
      LoopDone(g, n0, l0, e, nodes, labels, q, level, b, index, nb, j0, j, index', nb', leaf);
    }

    /** The loop body of phys_page_set_level: entry `j` of node `q` becomes a leaf if the
        interval covers it whole, and is descended into otherwise. */
    method SetEntry(q: nat, j: nat, ghost b: nat, index: nat, nb: nat, leaf: nat, level: nat)
      returns (index': nat, nb': nat)
      requires Valid() && AllPlain(nodes) && b % Span(g.fanout, level + 1) == 0
      requires q < |nodes| && q < g.nil && labels[q] == Label(level, b) && j < g.fanout
      requires Contains(g.fanout, level, EntryBase(g.fanout, level, b, j), index) && 0 < nb && 0 < leaf < g.nil
      requires Unassigned(g, nodes, Entry(1, q), level + 1, b, index, nb)
      requires |nodes| + ChildBound(g, level, EntryBase(g.fanout, level, b, j), index, nb) <= nodesAlloc
      requires |nodes| + ChildBound(g, level, EntryBase(g.fanout, level, b, j), index, nb) <= g.nil
      modifies this`nodes, this`labels
      decreases level, 0
      ensures Valid() && q < |nodes| == |labels| && labels[q] == Label(level, b)
      ensures index' == Upto(index + nb, EntryBase(g.fanout, level, b, j) + Span(g.fanout, level))
      ensures index' + nb' == index + nb
      ensures Updated(g, old(nodes), old(labels), Entry(1, q), nodes, labels, Entry(1, q), level + 1, b, index,
                      index', leaf)
      ensures |nodes| <= old(|nodes|) + ChildBound(g, level, EntryBase(g.fanout, level, b, j), index, nb)
    {
      hide Updated, Unassigned, TreeOk, EntryOk, AllPlain, EntryBase;
      var step := Span(g.fanout, level);
      ghost var c := EntryBase(g.fanout, level, b, j);
      ghost var n0, l0 := nodes, labels;
      EntryReady(g, nodes, labels, q, j, index, nb);
      var child: Entry;
      if index % step == 0 && nb >= step {
        AlignedStart(step, c, index);
        LeafChild(g, nodes, labels, nodes[q][j], level, c, leaf);
        child := Entry(0, leaf);
        index', nb' := index + step, nb - step;
      } else {
        child, index', nb' := SetLevel(nodes[q][j], c, index, nb, leaf, level - 1);
      }
      ChildUpdated(g, n0, l0, q, j, nodes, labels, child, index, index', leaf);
      nodes := nodes[q := nodes[q][j := child]];
    }

    /** phys_page_set: with 3 * P_L2_LEVELS nodes reserved, of which it uses fewer than
        2 * P_L2_LEVELS, it sets exactly the pages of [index, index + nb). */
    method PageSet(root: Entry, index: nat, nb: nat, leaf: nat) returns (root': Entry)
      requires Valid() && AllPlain(nodes)
      requires EntryOk(g, labels, root, g.levels, 0) && root.skip == 1
      requires 0 < nb && index + nb <= Span(g.fanout, g.levels) && 0 < leaf < g.nil
      requires Unassigned(g, nodes, root, g.levels, 0, index, nb)
      requires |nodes| + 2 * g.levels - 1 <= g.nil
      modifies this
      ensures Valid() && AllPlain(nodes) && EntryOk(g, labels, root', g.levels, 0) && root'.skip == 1
      ensures WalksUpdated(g, old(nodes), root, nodes, root', g.levels, 0, index, index + nb, leaf)
      ensures |nodes| <= old(|nodes|) + 2 * g.levels - 1
    {
      hide TreeOk, EntryOk, AllPlain, Unassigned, Walk, Inside;
      NodeReserve(3 * g.levels);
      var index', nb';
      root', index', nb' := SetLevel(root, 0, index, nb, leaf, g.levels - 1);
    }
  }
}
