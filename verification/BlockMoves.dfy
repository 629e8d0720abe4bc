/** Moving the parents of one block node to another, and attaching files and block backends (qemu/block.c). */
module BlockMoves {
  import opened Common
  import opened BlockGraph
  import opened BlockChain

  /** Edge `e` leads to `to` instead; the reference goes with it. */
  ghost function ReplaceChild(v: View, e: Edge, to: Node): View
    requires e in v.edges && v.edges[e].bs in v.ext && to in v.ext && v.ext[to] > 0 && v.edges[e].bs != to
  {
    v.(edges := v.edges[e := v.edges[e].(bs := to)],
       ext := v.ext[to := v.ext[to] - 1][v.edges[e].bs := v.ext[v.edges[e].bs] + 1])
  }

  lemma ReplaceChildInv(v: View, e: Edge, to: Node)
    requires Inv(v, {}) && e in v.edges && v.edges[e].bs in v.nodes && v.edges[e].bs in v.ext && to in v.nodes
    requires to in v.ext
    requires v.ext[to] > 0 && v.edges[e].bs != to && v.edges[e].role != Backing
    ensures Inv(ReplaceChild(v, e, to), {})
  {
    hide Blocked, Counted, InEdges;
    var v' := ReplaceChild(v, e, to);
    forall d | d in v'.edges ensures EdgeOk(v', d) {
      assert EdgeOk(v, d);
    }
    forall m | m in v'.nodes ensures FieldsOk(v', m) && v'.nodes[m].refcnt > 0 {
      assert FieldsOk(v, m);
    }
    ReplaceChildCounted(v, e, to);
    ReplaceChildBlocked(v, e, to);
  }

  lemma ReplaceChildCounted(v: View, e: Edge, to: Node)
    requires Counted(v) && e in v.edges && v.edges[e].bs in v.ext && to in v.ext && v.ext[to] > 0 && v.edges[e].bs != to
    ensures Counted(ReplaceChild(v, e, to))
  {
    var v' := ReplaceChild(v, e, to);
    var rest := v.edges - {e};
    assert rest[e := v.edges[e].(bs := to)] == v'.edges;
    assert v'.ext.Keys == v.ext.Keys;
    forall m | m in v'.nodes ensures v'.nodes[m].refcnt == |InEdges(v'.edges, m)| + v'.ext[m] {
      InEdgesDetach(v.edges, e, m);
      InEdgesAdd(rest, e, v.edges[e].(bs := to), m);
    }
  }

  lemma ReplaceChildBlocked(v: View, e: Edge, to: Node)
    requires Blocked(v) && e in v.edges && v.edges[e].bs in v.ext && to in v.ext && v.ext[to] > 0
    requires v.edges[e].bs != to && v.edges[e].role != Backing
    ensures Blocked(ReplaceChild(v, e, to))
  {
    var v' := ReplaceChild(v, e, to);
    forall k: Node, op: BlockOp, m: Node | k in v'.nodes
      ensures (op, m) in v'.nodes[k].blockers <==> op != CommitTarget && IsBackingEdge(v'.edges, m, k)
    {
      assert (op, m) in v.nodes[k].blockers <==> op != CommitTarget && IsBackingEdge(v.edges, m, k);
      if IsBackingEdge(v.edges, m, k) {
        var d :| d in v.edges && v.edges[d] == Child(k, Backing, Some(m));
        assert d in v'.edges && v'.edges[d] == Child(k, Backing, Some(m));
      }
    }
  }

  /** Edges `es` lead to `to` instead of `from`. */
  ghost function Moved(v: View, es: set<Edge>, from: Node, to: Node): View
    requires from in v.nodes && to in v.nodes && from != to
  {
    View(v.nodes[from := v.nodes[from].(refcnt := v.nodes[from].refcnt - |es|)]
                [to := v.nodes[to].(refcnt := v.nodes[to].refcnt + |es|)],
         map e | e in v.edges :: if e in es then v.edges[e].(bs := to) else v.edges[e],
         v.ext)
  }

  /** The parents of `from` that follow it to another node: all but overlays. */
  ghost function Movable(v: View, from: Node): set<Edge> {
    set e | e in v.edges && v.edges[e].bs == from && v.edges[e].role != Backing
  }

  lemma MovedMeans(v: View, from: Node, to: Node)
    requires from in v.nodes && to in v.nodes && from != to
    ensures var v' := Moved(v, Movable(v, from), from, to);
            && v'.edges.Keys == v.edges.Keys && v'.nodes.Keys == v.nodes.Keys && v'.ext == v.ext
            && forall e :: e in v.edges ==>
                 v'.edges[e] == if v.edges[e].bs == from && v.edges[e].role != Backing
                                then v.edges[e].(bs := to) else v.edges[e]
  {
  }

  lemma MovedNone(v: View, from: Node, to: Node)
    requires from in v.nodes && to in v.nodes && from != to
    ensures Moved(v, {}, from, to) == v
  {
    assert Moved(v, {}, from, to).edges == v.edges;
    assert Moved(v, {}, from, to).nodes == v.nodes;
  }

  /** One turn of change_parent_backing_link: bdrv_ref, bdrv_replace_child and bdrv_unref. */
  lemma MovedOne(v: View, v0: View, v': View, es: set<Edge>, from: Node, to: Node, e: Edge)
    requires from in v.nodes && to in v.nodes && from != to && v.ext.Keys == v.nodes.Keys && v.ext[from] > 0
    requires v0 == Moved(v, es, from, to) && e in v.edges && v.edges[e].bs == from && e !in es
    requires to in v0.nodes && from in v0.nodes && v'.ext == v0.ext && v'.edges == v0.edges[e := v0.edges[e].(bs := to)]
    requires v'.nodes == v0.nodes[to := v0.nodes[to].(refcnt := v0.nodes[to].refcnt + 1)]
                                 [from := v0.nodes[from].(refcnt := v0.nodes[from].refcnt - 1)]
    ensures v' == Moved(v, es + {e}, from, to)
  {
    var w := Moved(v, es + {e}, from, to);
    assert |es + {e}| == |es| + 1;
    assert w.edges == v'.edges;
    assert w.nodes == v'.nodes;
  }

  /** The parents that move are ranked above the node they move to. */
  ghost predicate ParentsAbove(v: View, es: set<Edge>, to: Node, rank: map<Node, nat>) {
    && to in rank && es <= v.edges.Keys
    && forall e :: e in es && e in v.edges && v.edges[e].parent.Some? ==>
         v.edges[e].parent.value in rank && rank[to] < rank[v.edges[e].parent.value]
  }

  lemma MovedRanked(v: View, es: set<Edge>, from: Node, to: Node, rank: map<Node, nat>)
    requires RankedAll(v, rank) && from in v.nodes && to in v.nodes && from != to && ParentsAbove(v, es, to, rank)
    ensures RankedAll(Moved(v, es, from, to), rank)
  {
  }

  /** No node that moves to `to` is at or below it. */
  ghost predicate ParentsApart(v: View, from: Node, to: Node) {
    forall e :: e in Movable(v, from) && v.edges[e].parent.Some? ==> !Reaches(v.edges, to, v.edges[e].parent.value)
  }

  ghost function ParentsOf(v: View, es: set<Edge>): set<Node> {
    set e | e in es && e in v.edges && v.edges[e].parent.Some? :: v.edges[e].parent.value
  }

  lemma ReplaceRank(v: View, from: Node, to: Node) returns (rank: map<Node, nat>)
    requires Acyclic(v) && from in v.nodes && to in v.nodes && ParentsApart(v, from, to)
    ensures RankedAll(v, rank) && ParentsAbove(v, Movable(v, from), to, rank)
  {
    var rank0: map<Node, nat> :| RankedAll(v, rank0);
    rank := Raise(v.edges, rank0, ParentsOf(v, Movable(v, from)));
    ApartReaches(v, from, to);
  }

  lemma ApartReaches(v: View, from: Node, to: Node)
    requires ParentsApart(v, from, to)
    ensures !ReachesAny(v.edges, to, ParentsOf(v, Movable(v, from)))
  {
  }

  lemma ParentsNotBelow(v: View, rank: map<Node, nat>, top: Node)
    requires Ranked(v.edges, rank) && top in rank
    ensures !ReachesAny(v.edges, top, ParentsOf(v, Movable(v, top)))
  {
    forall x | x in ParentsOf(v, Movable(v, top)) ensures !Reaches(v.edges, top, x) {
      if Reaches(v.edges, top, x) {
        ReachesRank(v.edges, rank, top, x);
      }
    }
  }

  /** There is room for a node between `top` and the parents of `top`. */
  lemma AppendRank(v: View, overlay: Node, top: Node) returns (rank: map<Node, nat>)
    requires Acyclic(v) && overlay in v.nodes && top in v.nodes && ParentsApart(v, top, overlay)
    requires !Reaches(v.edges, top, overlay)
    ensures RankedAll(v, rank) && rank[top] < rank[overlay] && ParentsAbove(v, Movable(v, top), overlay, rank)
  {
    hide Reaches, Ranked, ReachesAny, Acyclic, ParentsApart;
    var rank0 := RankForEdge(v, overlay, top);
    var ps := ParentsOf(v, Movable(v, top));
    rank := Raise(v.edges, rank0, ps);
    ApartReaches(v, top, overlay);
    ParentsNotBelow(v, rank0, top);
    RankedParents(v, rank, Movable(v, top));
  }

  lemma RankedParents(v: View, rank: map<Node, nat>, es: set<Edge>)
    requires Ranked(v.edges, rank)
    ensures ParentsOf(v, es) <= rank.Keys
  {
  }

  /** bdrv_ref and bdrv_replace_child, as bdrv_unref finds them. */
  lemma TurnReady(v: View, v0: View, es: set<Edge>, from: Node, to: Node, e: Edge)
    requires from in v.nodes && to in v.nodes && from != to && v.ext.Keys == v.nodes.Keys && v.ext[from] > 0
    requires v0 == Moved(v, es, from, to) && e in Movable(v, from) && e !in es && Inv(v0, {})
    ensures from in v0.nodes && from in v0.ext && to in v0.nodes && to in v0.ext && e in v0.edges
    ensures v0.edges[e] == v.edges[e]
    ensures var v1 := AddRef(v0, to); var v2 := ReplaceChild(v1, e, to);
            Inv(v2, {}) && from in v2.nodes && from in v2.ext && v2.ext[from] > 1 && v2.nodes[from].refcnt > 1
  {
    hide EdgesOk, Blocked, Settled, InEdges;
    AddRefInv(v0, {}, to);
    var v1 := AddRef(v0, to);
    ReplaceChildInv(v1, e, to);
  }

  lemma TurnDone(v: View, v0: View, es: set<Edge>, from: Node, to: Node, e: Edge)
    requires from in v.nodes && to in v.nodes && from != to && v.ext.Keys == v.nodes.Keys && v.ext[from] > 0
    requires v0 == Moved(v, es, from, to) && e in Movable(v, from) && e !in es
    ensures from in v0.nodes && from in v0.ext && to in v0.nodes && to in v0.ext && e in v0.edges
    ensures v0.edges[e] == v.edges[e]
    ensures var v2 := ReplaceChild(AddRef(v0, to), e, to);
            from in v2.nodes && from in v2.ext && v2.ext[from] > 0 && DropRef(v2, from) == Moved(v, es + {e}, from, to)
  {
    var v2 := ReplaceChild(AddRef(v0, to), e, to);
    assert DropRef(v2, from).ext == v0.ext;
    MovedOne(v, v0, DropRef(v2, from), es, from, to, e);
  }

  /** Only `overlay` may have `top` as its backing node: what change_parent_backing_link asserts. */
  ghost predicate OnlyOverlay(v: View, top: Node, overlay: Node) {
    forall e :: e in v.edges && v.edges[e].bs == top && v.edges[e].role == Backing ==>
        v.edges[e].parent == Some(overlay)
  }

  /** After the parents moved and the overlay got its backing node, the reference held meanwhile is given up. */
  lemma Appended(v: View, v2: View, v3: View, es: set<Edge>, top: Node, overlay: Node)
    requires top in v.nodes && overlay in v.nodes && top != overlay && top in v.ext && v.ext.Keys == v.nodes.Keys
    requires v2 == Moved(AddRef(v, top), es, top, overlay) && Relinked(v2, v3, overlay, Some(top)) && Inv(v3, {})
    ensures top in v3.nodes && top in v3.ext && v3.ext[top] > 0 && v3.nodes[top].refcnt > 1
    ensures Relinked(Moved(v, es, top, overlay), DropRef(v3, top), overlay, Some(top))
  {
    RelinkedTarget(v2, v3, overlay, top);
    Referenced(v3, {});
    var e := v3.nodes[overlay].backing.value;
    assert e in InEdges(v3.edges, top);
    assert v3.nodes[top].refcnt > 1 by { assert Counted(v3); }
    MovedDrop(v, es, top, overlay);
    RelinkedDrop(v2, v3, overlay, top);
  }

  lemma MovedDrop(v: View, es: set<Edge>, top: Node, overlay: Node)
    requires top in v.nodes && overlay in v.nodes && top != overlay && top in v.ext
    ensures var v2 := Moved(AddRef(v, top), es, top, overlay);
            top in v2.nodes && top in v2.ext && v2.ext[top] > 0 && DropRef(v2, top) == Moved(v, es, top, overlay)
  {
    var v2 := Moved(AddRef(v, top), es, top, overlay);
    assert DropRef(v2, top).ext == v.ext;
    assert DropRef(v2, top).nodes == Moved(v, es, top, overlay).nodes;
  }

  lemma RelinkedDrop(v: View, v': View, o: Node, c: Node)
    requires Relinked(v, v', o, Some(c)) && o != c && c in v.nodes && c in v'.nodes && v.ext[c] > 0 && v'.ext[c] > 0
    ensures Relinked(DropRef(v, c), DropRef(v', c), o, Some(c))
  {
    var w, w' := DropRef(v, c), DropRef(v', c);
    assert w.nodes.Keys == v.nodes.Keys && w'.nodes.Keys == v'.nodes.Keys;
    assert w.ext.Keys == v.ext.Keys && w'.ext.Keys == v'.ext.Keys;
    assert SameHolders(w, w');
    assert SameFields(w, w', o);
    RelinkedDropEdges(v, v', w, w', o);
  }

  lemma RelinkedDropEdges(v: View, v': View, w: View, w': View, o: Node)
    requires NoOtherEdges(v, v', o) && EdgesFollow(v, v', o) && w.edges == v.edges && w'.edges == v'.edges
    requires w.nodes.Keys == v.nodes.Keys && w'.nodes.Keys == v'.nodes.Keys
    requires o in v.nodes && o in v'.nodes && w.nodes[o] == v.nodes[o] && w'.nodes[o] == v'.nodes[o]
    ensures NoOtherEdges(w, w', o) && EdgesFollow(w, w', o)
  {
    forall e | e in w'.edges && Some(e) != w'.nodes[o].backing ensures e in w.edges && Kept(w, w', e) {
      assert Kept(v, v', e);
    }
    forall e | e in w.edges && Some(e) != w.nodes[o].backing ensures Kept(w, w', e) <==> ParentLives(w, w', e) {
      assert Kept(v, v', e) <==> ParentLives(v, v', e);
    }
  }

  /** The moved edges stay with the overlay. */
  lemma MovedStay(v: View, v': View, es: set<Edge>, top: Node, overlay: Node, rank: map<Node, nat>, e: Edge)
    requires top in v.nodes && overlay in v.nodes && top != overlay && e in es && es <= Movable(v, top)
    requires Relinked(Moved(v, es, top, overlay), v', overlay, Some(top)) && ParentsAbove(v, es, overlay, rank)
    requires OnlyBelow(Moved(v, es, top, overlay), v', rank, overlay) && Inv(Moved(v, es, top, overlay), {})
    ensures e in v'.edges && v'.edges[e] == v.edges[e].(bs := overlay)
  {
    hide Counted, Blocked, SameHolders, NoOtherEdges;
    var v2 := Moved(v, es, top, overlay);
    assert v2.edges[e] == v.edges[e].(bs := overlay);
    assert EdgeOk(v2, e) && FieldsOk(v2, overlay);
    assert ParentLives(v2, v', e);
    assert Kept(v2, v', e);
  }

  lemma MovedEdge(v: View, done: set<Edge>, from: Node, to: Node, c: Edge)
    requires from in v.nodes && to in v.nodes && from != to && c in InEdges(v.edges, from) && c !in done
    ensures c in Moved(v, done, from, to).edges && Moved(v, done, from, to).edges[c] == v.edges[c]
    ensures c in Movable(v, from) <==> v.edges[c].role != Backing
  {
  }

  lemma MovedRank(v: View, done: set<Edge>, from: Node, to: Node, c: Edge, rank: map<Node, nat>)
    requires RankedAll(v, rank) && from in v.nodes && to in v.nodes && from != to
    requires ParentsAbove(v, Movable(v, from), to, rank)
    requires done <= Movable(v, from) && c in Movable(v, from)
    ensures RankedAll(Moved(v, done + {c}, from, to), rank) && Ranked(Moved(v, done + {c}, from, to).edges, rank)
    ensures from in rank
  {
    assert ParentsAbove(v, done + {c}, to, rank);
    MovedRanked(v, done + {c}, from, to, rank);
  }

  lemma ReplaceChildIs(v0: View, v1: View, c: Edge, to: Node)
    requires c in v0.edges && v0.edges[c].bs in v0.ext && to in v0.ext && to in v0.nodes && v0.edges[c].bs != to
    requires v1 == AddRef(v0, to)
    ensures c in v1.edges && v1.edges == v0.edges && to in v1.ext && v1.ext[to] > 0 && v1.edges[c].bs in v1.ext
    ensures ReplaceChild(v1, c, to) == View(v1.nodes, v1.edges[c := v1.edges[c].(bs := to)],
                                            v1.ext[to := v1.ext[to] - 1][v1.edges[c].bs := v1.ext[v1.edges[c].bs] + 1])
  {
  }

  lemma AppendStart(v: View, overlay: Node, top: Node, rank: map<Node, nat>)
    requires Inv(v, {}) && RankedAll(v, rank) && overlay in v.nodes && top in v.nodes && overlay != top
    requires OnlyOverlay(v, top, overlay) && ParentsAbove(v, Movable(v, top), overlay, rank)
    ensures top in v.ext && v.ext.Keys == v.nodes.Keys && top in rank && overlay in rank
    ensures var v1 := AddRef(v, top);
            && RankedAll(v1, rank) && OnlyOverlay(v1, top, overlay) && Movable(v1, top) == Movable(v, top)
            && ParentsAbove(v1, Movable(v1, top), overlay, rank) && v1.edges == v.edges
            && top in v1.nodes && overlay in v1.nodes && v1.nodes[overlay] == v.nodes[overlay]
            && top in v1.ext && v1.ext[top] > 0
  {
    hide Blocked, Settled, EdgesOk, Ranked;
    assert Movable(AddRef(v, top), top) == Movable(v, top);
  }

  lemma MovedShape(v: View, es: set<Edge>, top: Node, overlay: Node)
    requires top in v.nodes && overlay in v.nodes && top != overlay
    ensures var v' := Moved(v, es, top, overlay);
            && top in v'.nodes && overlay in v'.nodes && v'.nodes[overlay].drv == v.nodes[overlay].drv
            && v'.ext == v.ext
            && v'.nodes.Keys == v.nodes.Keys
  {
  }

  lemma AppendedBelow(v: View, v2: View, v3: View, es: set<Edge>, top: Node, overlay: Node, rank: map<Node, nat>)
    requires top in v.nodes && overlay in v.nodes && top != overlay && top in v.ext && overlay in v.ext
    requires v.ext[overlay] > 0
    requires v2 == Moved(AddRef(v, top), es, top, overlay) && Relinked(v2, v3, overlay, Some(top))
    ensures overlay in v3.nodes && overlay in v3.ext && v3.ext[overlay] > 0 && BackingOf(v3, overlay) == Some(top)
  {
    hide NoOtherEdges, EdgesFollow, SameFields, BackingOf;
    assert v2.ext[overlay] == v.ext[overlay];
    assert overlay in v2.nodes && overlay in v3.nodes;
  }

  /** Moved edges keep the overlay alive. */
  lemma OverlayHeld(v: View, overlay: Node, e: Edge)
    requires Inv(v, {}) && overlay in v.nodes && overlay in v.ext && v.ext[overlay] > 0 && e in v.edges
    requires v.edges[e].bs == overlay
    ensures v.nodes[overlay].refcnt > 1
  {
    assert e in InEdges(v.edges, overlay);
  }

  lemma BackingOfDrop(v: View, n: Node, m: Node)
    requires n in v.nodes && n in v.ext && v.ext[n] > 0
    ensures BackingOf(DropRef(v, n), m) == BackingOf(v, m) && (m in v.nodes <==> m in DropRef(v, n).nodes)
    ensures m != n && m in v.ext ==> m in DropRef(v, n).ext && DropRef(v, n).ext[m] == v.ext[m]
  {
  }

  /** Whoever survives keeps its backing child. */
  lemma BackingSurvives(v: View, v': View, n: Node)
    requires Inv(v, {}) && Cascaded(v, v', {}) && n in v.nodes && n in v'.nodes
    ensures BackingOf(v', n) == BackingOf(v, n)
  {
    hide Counted, Blocked;
    assert FieldsOk(v, n);
  }

  lemma StillRanked(v: View, v': View, rank: map<Node, nat>)
    requires RankedAll(v, rank) && Cascaded(v, v', {}) && Ranked(v'.edges, rank)
    ensures RankedAll(v', rank)
  {
  }

  lemma RankedEdges(v: View, rank: map<Node, nat>, n: Node)
    requires RankedAll(v, rank) && n in v.nodes
    ensures Ranked(v.edges, rank) && BelowBusy(v.nodes, {}, rank, n)
  {
  }

  /** A new edge for a block backend, or for the file of a node that is opened. It takes over a reference. */
  ghost function Attach(v: View, e: Edge, child: Child): View
    requires child.bs in v.ext && v.ext[child.bs] > 0
    requires (child.role == File ==> child.parent.Some? && child.parent.value in v.nodes)
  {
    View(if child.role == File
         then v.nodes[child.parent.value := v.nodes[child.parent.value].(file := Some(e), drv := true)]
         else v.nodes,
         v.edges[e := child],
         v.ext[child.bs := v.ext[child.bs] - 1])
  }

  lemma AttachInv(v: View, e: Edge, child: Child)
    requires Inv(v, {}) && e !in v.edges && child.bs in v.nodes && child.bs in v.ext && v.ext[child.bs] > 0
    requires child.role != Backing && (child.role == Root <==> child.parent == None)
    requires child.role == File ==> child.parent.value in v.nodes && v.nodes[child.parent.value].file == None
    ensures Inv(Attach(v, e, child), {})
  {
    hide Blocked, Counted, InEdges;
    var v' := Attach(v, e, child);
    assert v'.nodes.Keys == v.nodes.Keys;
    forall d | d in v'.edges ensures EdgeOk(v', d) {
      assert d != e ==> EdgeOk(v, d);
    }
    forall m | m in v'.nodes ensures FieldsOk(v', m) && v'.nodes[m].refcnt > 0 {
      assert FieldsOk(v, m);
    }
    AttachKeeps(v, e, child);
  }

  lemma AttachKeeps(v: View, e: Edge, child: Child)
    requires Counted(v) && Blocked(v) && e !in v.edges && child.bs in v.ext && v.ext[child.bs] > 0
    requires child.role != Backing
    requires child.role == File ==> child.parent.Some? && child.parent.value in v.nodes
    ensures Counted(Attach(v, e, child)) && Blocked(Attach(v, e, child))
  {
    var v' := Attach(v, e, child);
    forall m | m in v'.nodes ensures v'.nodes[m].refcnt == |InEdges(v'.edges, m)| + v'.ext[m] {
      InEdgesAdd(v.edges, e, child, m);
    }
    forall k: Node, op: BlockOp, m: Node | k in v'.nodes
      ensures (op, m) in v'.nodes[k].blockers <==> op != CommitTarget && IsBackingEdge(v'.edges, m, k)
    {
      assert (op, m) in v.nodes[k].blockers <==> op != CommitTarget && IsBackingEdge(v.edges, m, k);
      if IsBackingEdge(v.edges, m, k) {
        var d :| d in v.edges && v.edges[d] == Child(k, Backing, Some(m));
        assert d in v'.edges && v'.edges[d] == Child(k, Backing, Some(m));
      }
    }
  }

  lemma AttachRanked(v: View, e: Edge, child: Child, rank: map<Node, nat>)
    requires RankedAll(v, rank) && child.bs in v.nodes && child.bs in v.ext && v.ext[child.bs] > 0
    requires child.role == File ==> child.parent.Some? && child.parent.value in v.nodes
    requires child.parent.Some? ==> child.parent.value in v.nodes && rank[child.bs] < rank[child.parent.value]
    ensures RankedAll(Attach(v, e, child), rank)
  {
  }

  /** A block backend lets go of its node. */
  lemma DetachRootInv(v: View, e: Edge)
    requires Inv(v, {}) && e in v.edges && v.edges[e].role == Root
    ensures v.edges[e].bs in v.nodes && v.edges[e].bs in v.ext
    ensures Inv(Detach(v, e), {})
  {
    hide Blocked, Counted, InEdges;
    assert EdgeOk(v, e);
    assert v.ext.Keys == v.nodes.Keys by { Referenced(v, {}); }
    var v' := Detach(v, e);
    DetachCounted(v, e);
    forall d | d in v'.edges ensures EdgeOk(v', d) {
      assert EdgeOk(v, d);
    }
    forall m | m in v'.nodes ensures FieldsOk(v', m) && v'.nodes[m].refcnt > 0 {
      assert FieldsOk(v, m);
    }
    DetachRootBlocked(v, e);
  }

  lemma DetachRootBlocked(v: View, e: Edge)
    requires Blocked(v) && e in v.edges && v.edges[e].role == Root && v.edges[e].bs in v.ext
    ensures Blocked(Detach(v, e))
  {
    var v' := Detach(v, e);
    forall k: Node, op: BlockOp, m: Node | k in v'.nodes
      ensures (op, m) in v'.nodes[k].blockers <==> op != CommitTarget && IsBackingEdge(v'.edges, m, k)
    {
      assert (op, m) in v.nodes[k].blockers <==> op != CommitTarget && IsBackingEdge(v.edges, m, k);
      if IsBackingEdge(v.edges, m, k) {
        var d :| d in v.edges && v.edges[d] == Child(k, Backing, Some(m));
        assert d in v'.edges;
      }
    }
  }

  /** A new node, held by its creator. */
  ghost function Create(v: View, n: Node): View {
    v.(nodes := v.nodes[n := Bds(1, None, None, false, {})], ext := v.ext[n := 1])
  }

  lemma CreateInv(v: View, n: Node)
    requires Inv(v, {}) && n !in v.nodes
    ensures Inv(Create(v, n), {})
  {
    var v' := Create(v, n);
    forall e | e in v.edges ensures EdgeOk(v', e) && v.edges[e].bs != n {
      assert EdgeOk(v, e);
    }
    assert InEdges(v'.edges, n) == {};
    forall m | m in v'.nodes ensures FieldsOk(v', m) && v'.nodes[m].refcnt > 0 {
      assert m != n ==> FieldsOk(v, m);
    }
  }

  lemma CreateAcyclic(v: View, n: Node)
    requires Acyclic(v) && n !in v.nodes
    ensures Acyclic(Create(v, n))
  {
    var rank: map<Node, nat> :| RankedAll(v, rank);
    var rank' := if n in rank then rank else rank[n := 0];
    assert RankedAll(Create(v, n), rank');
  }

  /** The parents of `from` that moved are still there after `from` was given up. */
  lemma ReplacedStay(v: View, v2: View, v': View, es: set<Edge>, from: Node, to: Node, rank: map<Node, nat>, e: Edge)
    requires from in v.nodes && to in v.nodes && from != to && es == Movable(v, from) && e in es
    requires v2 == Moved(v, es, from, to)
    requires EdgesOk(v) && Ranked(v.edges, rank) && Cascaded(v2, v', {}) && OnlyBelow(v2, v', rank, from)
    ensures e in v'.edges && v'.edges[e] == v.edges[e].(bs := to)
  {
    assert EdgeOk(v, e);
    assert e in v2.edges && v2.edges[e] == v.edges[e].(bs := to);
  }

  lemma Sound(v: View)
    requires Inv(v, {})
    ensures EdgesOk(v)
  {
  }

  lemma DetachRootAcyclic(v: View, e: Edge)
    requires Acyclic(v) && e in v.edges && v.edges[e].bs in v.ext
    ensures Acyclic(Detach(v, e))
  {
    var rank: map<Node, nat> :| RankedAll(v, rank);
    assert RankedAll(Detach(v, e), rank);
  }

  lemma FreshNode(nodes: map<Node, Bds>)
    ensures exists n: Node :: n !in nodes
  {
    var k := EdgeBound(nodes.Keys);
    assert k !in nodes;
  }
}
