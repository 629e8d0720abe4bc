/** The operations on the graph of block nodes (qemu/block.c). */
module BlockLayer {
  import opened Common
  import opened BlockGraph
  import opened BlockChain
  import opened BlockMoves

  class Graph {
    var nodes: map<Node, Bds>
    var edges: map<Edge, Child>
    /** References held by the rest of the program. */
    ghost var ext: map<Node, nat>

    ghost function V(): View
      reads this
    {
      View(nodes, edges, ext)
    }

    constructor ()
      ensures Inv(V(), {}) && Acyclic(V()) && V() == View(map[], map[], map[])
    {
      nodes, edges, ext := map[], map[], map[];
      new;
      ghost var rank: map<Node, nat> := map[];
      assert RankedAll(V(), rank);
    }

    /** bdrv_new */
    method New() returns (n: Node)
      requires Inv(V(), {}) && Acyclic(V())
      modifies this
      ensures n !in old(nodes) && Inv(V(), {}) && Acyclic(V())
      ensures nodes == old(nodes)[n := Bds(1, None, None, false, {})] && edges == old(edges) && ext == old(ext)[n := 1]
    {
      hide Inv, Acyclic;
      FreshNode(nodes);
      n :| n !in nodes;
      CreateInv(V(), n);
      CreateAcyclic(V(), n);
      nodes := nodes[n := Bds(1, None, None, false, {})];
      ext := ext[n := 1];
    }

    /** bdrv_root_attach_child, which takes over the caller's reference. */
    method RootAttachChild(n: Node) returns (e: Edge)
      requires Inv(V(), {}) && Acyclic(V()) && n in nodes && n in ext && ext[n] > 0
      modifies this
      ensures e !in old(edges) && Inv(V(), {}) && Acyclic(V())
      ensures nodes == old(nodes) && edges == old(edges)[e := Child(n, Root, None)]
      ensures ext == old(ext)[n := old(ext)[n] - 1]
    {
      hide Inv, Ranked;
      FreshEdge(edges);
      e :| e !in edges;
      ghost var rank: map<Node, nat> :| RankedAll(V(), rank);
      AttachInv(V(), e, Child(n, Root, None));
      AttachRanked(V(), e, Child(n, Root, None), rank);
      edges := edges[e := Child(n, Root, None)];
      ext := ext[n := ext[n] - 1];
    }

    /** What a successful bdrv_open_common does to the graph: a driver, and the file if there is one,
        whose edge takes over the reference of bdrv_open_child. */
    method OpenFile(n: Node, file: Node) returns (e: Edge)
      requires Inv(V(), {}) && Acyclic(V()) && n in nodes && nodes[n].file == None
      requires file in nodes && file in ext && ext[file] > 0 && !Reaches(edges, file, n)
      modifies this
      ensures e !in old(edges) && Inv(V(), {}) && Acyclic(V())
      ensures nodes == old(nodes)[n := old(nodes)[n].(file := Some(e), drv := true)]
      ensures edges == old(edges)[e := Child(file, File, Some(n))] && ext == old(ext)[file := old(ext)[file] - 1]
    {
      hide Inv, Ranked;
      FreshEdge(edges);
      e :| e !in edges;
      ghost var rank := RankForEdge(V(), n, file);
      AttachInv(V(), e, Child(file, File, Some(n)));
      AttachRanked(V(), e, Child(file, File, Some(n)), rank);
      nodes := nodes[n := nodes[n].(file := Some(e), drv := true)];
      edges := edges[e := Child(file, File, Some(n))];
      ext := ext[file := ext[file] - 1];
    }

    /** bdrv_unref as the rest of the program calls it */
    method Release(n: Node)
      requires Inv(V(), {}) && Acyclic(V()) && n in nodes && n in ext && ext[n] > 0
      modifies this
      ensures Inv(V(), {}) && Acyclic(V())
      ensures Cascaded(old(V()), V(), {}) && Released(old(V()), V(), Some(n))
      ensures forall m :: m in old(nodes) && m !in nodes ==> Reaches(old(edges), n, m)
    {
      hide Inv, Cascaded, Released, Ranked, OnlyBelow;
      ghost var v := V();
      ghost var rank: map<Node, nat> :| RankedAll(v, rank);
      Unref(n, {}, rank);
      StillRanked(v, V(), rank);
      forall m | m in v.nodes && m !in nodes ensures Reaches(v.edges, n, m) {
        UnrefDeletes(v, V(), n, m);
      }
    }

    /** bdrv_root_unref_child of a block backend */
    method RootUnrefChild(e: Edge)
      requires Inv(V(), {}) && Acyclic(V()) && e in edges && edges[e].role == Root && edges[e].bs in ext
      modifies this
      ensures Inv(V(), {}) && Acyclic(V()) && e !in edges
      ensures Cascaded(Detach(old(V()), e), V(), {}) && Released(Detach(old(V()), e), V(), Some(old(edges)[e].bs))
    {
      hide Inv, Cascaded, Released, Ranked;
      ghost var v := V();
      var n := edges[e].bs;
      DetachRootInv(v, e);
      DetachRootAcyclic(v, e);
      edges := edges - {e};
      ext := ext[n := ext[n] + 1];
      ghost var v1 := V();
      Release(n);
      CascadedKeys(v1, V(), {});
    }

    /** bdrv_replace_in_backing_chain */
    method ReplaceInBackingChain(from: Node, to: Node)
      requires Inv(V(), {}) && Acyclic(V()) && from in nodes && from in ext && to in nodes && from != to
      requires OnlyOverlay(V(), from, to) && ParentsApart(V(), from, to)
      modifies this
      ensures Inv(V(), {}) && Acyclic(V())
      ensures var moved := Moved(AddRef(old(V()), from), Movable(old(V()), from), from, to);
              Cascaded(moved, V(), {}) && Released(moved, V(), Some(from))
      ensures forall e :: e in old(edges) && old(edges)[e].bs == from && old(edges)[e].role != Backing ==>
                e in edges && edges[e] == old(edges)[e].(bs := to)
    {
      hide Inv, Moved, AddRef, RankedAll, Ranked, Cascaded, OnlyBelow, Released, ParentsAbove, ParentsApart,
           OnlyOverlay;
      ghost var v := V();
      ghost var es := Movable(v, from);
      ghost var rank := ReplaceRank(v, from, to);
      AppendStart(v, to, from, rank);
      Ref(from);
      ghost var v1 := V();
      ChangeParentBackingLink(from, to, rank);
      ghost var v2 := V();
      MovedShape(v1, es, from, to);
      RankedEdges(v2, rank, from);
      RankedEdges(v1, rank, from);
      Unref(from, {}, rank);
      StillRanked(v2, V(), rank);
      Sound(v1);
      forall e | e in es ensures e in edges && edges[e] == v.edges[e].(bs := to) {
        ReplacedStay(v1, v2, V(), es, from, to, rank, e);
      }
    }

    /** bdrv_unref, with a reference that the caller holds. */
    method Unref(n: Node, ghost busy: set<Node>, ghost rank: map<Node, nat>)
      requires Inv(V(), busy) && Ranked(edges, rank) && BelowBusy(nodes, busy, rank, n)
      requires n in nodes && n !in busy && n in ext && ext[n] > 0
      modifies this
      decreases |edges|, 2
      ensures Inv(V(), busy) && Ranked(edges, rank)
      ensures Cascaded(old(V()), V(), {}) && OnlyBelow(old(V()), V(), rank, n) && Released(old(V()), V(), Some(n))
      ensures old(nodes)[n].refcnt > 1 ==> V() == DropRef(old(V()), n)
    {
      hide Inv, Ranked, Cascaded, OnlyBelow, Released, FieldsOk;
      ghost var v0 := V();
      DropRefInv(v0, busy, n);
      nodes := nodes[n := nodes[n].(refcnt := nodes[n].refcnt - 1)];
      ext := ext[n := ext[n] - 1];
      ghost var v1 := V();
      assert v1 == DropRef(v0, n);
      DropRefReleased(v0, busy, n, rank);
      if nodes[n].refcnt == 0 {
        Delete(n, busy, rank);
        CascadedThen(v0, v1, V(), {});
        CascadedKeys(v0, v1, {});
        CascadedKeys(v1, V(), {});
        OnlyBelowThen(v0, v1, V(), rank, n, n);
        ReleasedThen(v0, v1, V(), Some(n));
      }
    }

    /** bdrv_delete and bdrv_close, above which the nodes of `busy` are being deleted.
        Its assertion, that the node carries no blockers, holds. */
    method Delete(n: Node, ghost busy: set<Node>, ghost rank: map<Node, nat>)
      requires Inv(V(), busy + {n}) && Ranked(edges, rank) && BelowBusy(nodes, busy, rank, n)
      requires n in nodes && n !in busy && nodes[n].refcnt == 0 && FieldsOk(V(), n)
      modifies this
      decreases |edges|, 1
      ensures Inv(V(), busy) && Ranked(edges, rank)
      ensures Cascaded(old(V()), V(), {}) && OnlyBelow(old(V()), V(), rank, n) && Released(old(V()), V(), None)
    {
      hide Inv, Ranked, Cascaded, OnlyBelow, Released, FieldsOk, BelowBusy, NoChildren, Closing;
      ghost var v0 := V();
      NoReferences(v0, busy + {n}, n);
      assert nodes[n].blockers == {};
      if nodes[n].drv {
        Close(n, busy, rank);
      } else {
        ClosingStart(v0, busy, n, rank);
        NeverOpened(v0, busy + {n}, n);
      }
      Erased(v0, V(), busy, n, rank);
      nodes := nodes - {n};
      ext := ext - {n};
    }

    /** bdrv_close: the driver goes, then the backing child, then the file child. */
    method Close(n: Node, ghost busy: set<Node>, ghost rank: map<Node, nat>)
      requires Inv(V(), busy + {n}) && Ranked(edges, rank) && BelowBusy(nodes, busy, rank, n)
      requires n in nodes && n !in busy && FieldsOk(V(), n)
      modifies this
      decreases |edges|, 1, 0
      ensures Closing(old(V()), V(), busy, n, rank) && NoChildren(edges, n)
    {
      hide Inv, Ranked, Closing, BelowBusy, NoChildren, Cascaded, OnlyBelow, Released;
      ghost var v0 := V();
      var bds := nodes[n];
      ClosingStart(v0, busy, n, rank);
      ClosingField(v0, v0, busy, n, rank, bds.(drv := false));
      nodes := nodes[n := nodes[n].(drv := false)];
      if bds.backing.Some? {
        ClosingReady(v0, V(), busy, n, rank);
        ghost var v1 := V();
        UnrefChild(n, bds.backing.value, busy, rank);
        ClosingChild(v0, v1, V(), busy, n, rank);
      }
      ClosingField(v0, V(), busy, n, rank, nodes[n].(backing := None));
      nodes := nodes[n := nodes[n].(backing := None)];
      if bds.file.Some? {
        ClosingReady(v0, V(), busy, n, rank);
        ghost var v1 := V();
        UnrefChild(n, bds.file.value, busy, rank);
        ClosingChild(v0, v1, V(), busy, n, rank);
      }
      ClosingField(v0, V(), busy, n, rank, nodes[n].(file := None));
      nodes := nodes[n := nodes[n].(file := None)];
      Childless(v0, V(), busy, n, rank);
    }

    /** Giving up the backing or file child of a node in deletion:
        lifting its blockers, bdrv_detach_child and bdrv_unref. */
    method UnrefChild(n: Node, e: Edge, ghost busy: set<Node>, ghost rank: map<Node, nat>)
      requires Inv(V(), busy + {n}) && Ranked(edges, rank) && BelowBusy(nodes, busy, rank, n)
      requires n in nodes && n !in busy && e in edges && edges[e].parent == Some(n)
      modifies this
      decreases |edges|, 0
      ensures Inv(V(), busy + {n}) && Ranked(edges, rank) && BelowBusy(nodes, busy, rank, n)
      ensures |edges| < old(|edges|) && e !in edges
      ensures Cascaded(old(V()), V(), {n}) && OnlyBelow(old(V()), V(), rank, n) && Released(old(V()), V(), None)
      ensures n in nodes && nodes[n] == old(nodes)[n]
      ensures forall d :: d in old(edges) && old(edges)[d].parent == Some(n) && d != e ==>
                d in edges && edges[d] == old(edges)[d]
    {
      hide Inv, Ranked, Cascaded, OnlyBelow, Released, FieldsOk, BelowBusy, Unblock;
      ghost var v0 := V();
      var c := edges[e].bs;
      ChildBelow(v0, busy, n, e, rank);
      UnrefChildReady(v0, busy, n, e, rank);
      if edges[e].role == Backing {
        nodes := nodes[c := nodes[c].(blockers := Unblock(nodes[c].blockers, n))];
      }
      edges := edges - {e};
      ext := ext[c := ext[c] + 1];
      ghost var v1 := V();
      assert v1 == WithoutChild(v0, n, e);
      Unref(c, busy + {n}, rank);
      WithoutChildShape(v0, n, e);
      UnrefChildDone(v0, v1, V(), busy, n, c, rank);
      ChildGone(v0, v1, V(), n, e);
    }

    /** bdrv_ref */
    method Ref(n: Node)
      requires Inv(V(), {}) && n in nodes && n in ext
      modifies this
      ensures Inv(V(), {}) && V() == AddRef(old(V()), n)
      ensures nodes == old(nodes)[n := old(nodes)[n].(refcnt := old(nodes)[n].refcnt + 1)] && edges == old(edges)
      ensures ext == old(ext)[n := old(ext)[n] + 1]
    {
      hide Inv;
      AddRefInv(V(), {}, n);
      nodes := nodes[n := nodes[n].(refcnt := nodes[n].refcnt + 1)];
      ext := ext[n := ext[n] + 1];
    }

    /** bdrv_set_backing_hd. A new backing node must not reach the node that gets it. All nodes are in order
        afterwards if and only if a node that got a backing child has a driver. */
    method SetBackingHd(n: Node, target: Option<Node>)
      requires Inv(V(), {}) && Acyclic(V()) && n in nodes
      requires target.Some? ==> target.value in nodes && !Reaches(edges, target.value, n)
      modifies this
      ensures Inv(V(), {n}) && Acyclic(V()) && Relinked(old(V()), V(), n, target)
      ensures Inv(V(), {}) <==> target.None? || old(nodes)[n].drv
      ensures target.Some? ==>
                target.value in nodes && forall op :: (op, n) in nodes[target.value].blockers <==> op != CommitTarget
    {
      hide Inv, Relinked;
      ghost var rank: map<Node, nat>;
      if target.Some? {
        rank := RankForEdge(V(), n, target.value);
      } else {
        rank :| RankedAll(V(), rank);
      }
      ghost var v := V();
      SetBackingBelow(n, target, rank);
      if target.Some? {
        BlockedBy(V(), {n}, n, target.value);
      }
      if target.Some? && !v.nodes[n].drv {
        SettledOnlyWithDriver(v, V(), n, target);
      }
    }

    method SetBackingBelow(n: Node, target: Option<Node>, ghost rank: map<Node, nat>)
      requires Inv(V(), {}) && RankedAll(V(), rank) && n in nodes
      requires target.Some? ==> target.value in nodes && rank[target.value] < rank[n]
      modifies this
      ensures Inv(V(), {n}) && (target.None? || old(nodes)[n].drv ==> Inv(V(), {})) && RankedAll(V(), rank)
      ensures Relinked(old(V()), V(), n, target) && OnlyBelow(old(V()), V(), rank, n)
      ensures target.Some? ==> target.value in nodes && IsBackingEdge(edges, n, target.value)
    {
      hide Inv, RankedAll, Relinked, Loosened, AddRef, AttachBacking, OnlyBelow;
      if target.None? {
        ghost var v := V();
        LoosenBacking(n, rank);
        RelinkNone(v, V(), n);
        RelinkNoneRank(v, V(), n, rank);
        nodes := nodes[n := nodes[n].(backing := None)];
        InvMore(V(), n);
      } else {
        Rebase(n, target.value, rank);
      }
    }

    /** bdrv_set_backing_hd with a new backing node */
    method Rebase(n: Node, c: Node, ghost rank: map<Node, nat>)
      requires Inv(V(), {}) && RankedAll(V(), rank) && n in nodes && c in nodes && rank[c] < rank[n]
      modifies this
      ensures Inv(V(), {n}) && (old(nodes)[n].drv ==> Inv(V(), {})) && RankedAll(V(), rank)
      ensures Relinked(old(V()), V(), n, Some(c)) && OnlyBelow(old(V()), V(), rank, n)
      ensures c in nodes && IsBackingEdge(edges, n, c)
    {
      hide Inv, RankedAll, Relinked, Loosened, AddRef, AttachBacking, OnlyBelow, BackingBlockers;
      ghost var v := V();
      Referenced(v, {});
      RankedDifferent(v, rank, n, c);
      AddRefRanked(v, c, rank);
      AddRefShape(v, n, c);
      Ref(c);
      LoosenBacking(n, rank);
      ghost var v1 := V();
      FreshEdge(edges);
      var e: Edge :| e !in edges;
      RelinkSome(v, v1, n, e, c);
      RelinkSomeRank(v, v1, n, e, c, rank);
      nodes := nodes[n := nodes[n].(backing := Some(e))];
      nodes := nodes[c := nodes[c].(blockers := nodes[c].blockers + BackingBlockers(n))];
      edges := edges[e := Child(c, Backing, Some(n))];
      ext := ext[c := ext[c] - 1];
      AttachIs(v1, V(), n, e, c);
      assert edges[e] == Child(c, Backing, Some(n));
    }

    /** Giving up the backing child, if there is one. */
    method LoosenBacking(n: Node, ghost rank: map<Node, nat>)
      requires Inv(V(), {}) && RankedAll(V(), rank) && n in nodes
      modifies this
      ensures n in nodes && Inv(V(), {n}) && RankedAll(V(), rank)
      ensures Loosened(old(V()), V(), n) && OnlyBelow(old(V()), V(), rank, n)
    {
      hide Inv, OnlyBelow, Cascaded, Released, Ranked;
      ghost var v := V();
      LoosenReady(v, n, rank);
      if nodes[n].backing.Some? {
        UnrefChild(n, nodes[n].backing.value, {}, rank);
        CascadedKeys(v, V(), {n});
        assert {} + {n} == {n};
      } else {
        NothingToLoosen(v, n);
      }
    }

    /** bdrv_find_overlay */
    method FindOverlay(active: Option<Node>, target: Option<Node>) returns (r: Option<Node>)
      requires Inv(V(), {}) && Acyclic(V()) && (active.Some? ==> active.value in nodes)
      ensures r.Some? ==> active.Some? && OnChain(V(), active.value, r.value) && BackingOf(V(), r.value) == target
      ensures r.None? && active.Some? ==> forall o :: OnChain(V(), active.value, o) ==> BackingOf(V(), o) != target
      ensures active.Some? && active == target ==> r == None
    {
      hide Inv, Ranked;
      ghost var rank: map<Node, nat> :| RankedAll(V(), rank);
      r := active;
      ghost var s: seq<Node> := if active.Some? then [active.value] else [];
      while r.Some? && target != BackingBs(nodes, edges, r.value)
        invariant r.Some? ==> active.Some? && r.value in nodes && NotYet(V(), s, target)
        invariant r.Some? ==> s[0] == active.value && s[|s| - 1] == r.value
        invariant r.None? && active.Some? ==>
                    NotYet(V(), s, target) && s[0] == active.value && BackingOf(V(), s[|s| - 1]) == None
                      && target != None
        decreases if r.Some? then 1 + rank[r.value] else 0
      {
        var next := BackingBs(nodes, edges, r.value);
        if next.Some? {
          BackingBelow(V(), rank, r.value);
          NotYetStep(V(), s, target, next.value);
          s := s + [next.value];
        }
        r := next;
      }
      if active.Some? && r.None? {
        forall o | OnChain(V(), active.value, o) ensures BackingOf(V(), o) != target {
          NoOverlay(V(), s, target, o);
        }
      } else if active.Some? && r.Some? {
        NoOverlayOfSelf(V(), rank, active.value, r.value);
      }
    }

    /** bdrv_chain_contains */
    method ChainContains(top: Option<Node>, base: Option<Node>) returns (found: bool)
      requires Inv(V(), {}) && Acyclic(V()) && (top.Some? ==> top.value in nodes)
      ensures found <==> top.Some? && base.Some? && OnChain(V(), top.value, base.value)
    {
      hide Inv, Ranked;
      ghost var rank: map<Node, nat> :| RankedAll(V(), rank);
      var cur := top;
      ghost var s: seq<Node> := if top.Some? then [top.value] else [];
      while cur.Some? && cur != base
        invariant cur.Some? ==> top.Some? && cur.value in nodes && BackingPath(V(), s)
        invariant cur.Some? ==> s[0] == top.value && s[|s| - 1] == cur.value
        invariant cur.None? && top.Some? ==>
                    BackingPath(V(), s) && s[0] == top.value && BackingOf(V(), s[|s| - 1]) == None
        invariant forall i :: 0 <= i < |s| - (if cur.Some? then 1 else 0) ==> Some(s[i]) != base
        decreases if cur.Some? then 1 + rank[cur.value] else 0
      {
        var next := BackingBs(nodes, edges, cur.value);
        if next.Some? {
          BackingBelow(V(), rank, cur.value);
          ChainStep(V(), s, next.value);
          s := s + [next.value];
        }
        cur := next;
      }
      if top.Some? && cur.None? && base.Some? && OnChain(V(), top.value, base.value) {
        ChainEnd(V(), s, base.value);
      }
      found := cur.Some?;
    }

    /** bdrv_drop_intermediate. `changed` is what bdrv_change_backing_file returns. */
    method DropIntermediate(active: Node, top: Node, base: Node, changed: int)
      returns (ret: int, ghost overlay: Option<Node>)
      requires Inv(V(), {}) && Acyclic(V()) && active in nodes && top in nodes && base in nodes
      modifies this
      ensures Inv(V(), {}) && Acyclic(V())
      ensures ret == if !Droppable(old(V()), active, top, base) then -5 else if top == base then 0 else changed
      ensures ret != 0 || top == base ==> V() == old(V())
      ensures ret == 0 && top != base ==>
                && overlay.Some? && OnChain(old(V()), active, overlay.value)
                && BackingOf(old(V()), overlay.value) == Some(top)
                && Relinked(old(V()), V(), overlay.value, Some(base)) && base in nodes
                && (forall m :: m in old(nodes) && m !in nodes ==> Reaches(old(edges), top, m))
                && forall s, t ::
                     Spliceable(old(V()), s, active, overlay.value) && BackingPath(old(V()), t) && t[0] == base
                     ==> BackingPath(V(), s + t)
    {
      hide Inv, Ranked, Relinked, OnChain;
      ret, overlay := -5, None;
      if !nodes[top].drv || !nodes[base].drv {
        return;
      }
      var newTop := FindOverlay(Some(active), Some(top));
      overlay := newTop;
      if newTop.None? {
        return;
      }
      var backing := BackingBs(nodes, edges, newTop.value);
      if backing == Some(base) {
        OnChainSelf(V(), top);
        return 0, overlay;
      }
      var contained := ChainContains(Some(top), Some(base));
      if !contained {
        return;
      }
      if changed != 0 {
        return changed, overlay;
      }
      ghost var v := V();
      ghost var rank: map<Node, nat> :| RankedAll(V(), rank);
      OnChainBelow(v, rank, active, newTop.value);
      BackingBelow(v, rank, newTop.value);
      OnChainBelow(v, rank, top, base);
      SetBackingBelow(newTop.value, Some(base), rank);
      RelinkedTarget(v, V(), newTop.value, base);
      forall s, t | Spliceable(v, s, active, newTop.value) && BackingPath(v, t) && t[0] == base
        ensures BackingPath(V(), s + t)
      {
        Spliced(v, V(), rank, newTop.value, base, s, t);
      }
      forall m | m in v.nodes && m !in nodes ensures Reaches(v.edges, top, m) {
        RelinkDeletes(v, V(), newTop.value, Some(base), m);
      }
      ret := 0;
    }

    /** change_parent_backing_link */
    method ChangeParentBackingLink(from: Node, to: Node, ghost rank: map<Node, nat>)
      requires Inv(V(), {}) && RankedAll(V(), rank) && from in nodes && to in nodes && from != to && from in ext
      requires ext[from] > 0
      requires OnlyOverlay(V(), from, to) && ParentsAbove(V(), Movable(V(), from), to, rank)
      modifies this
      ensures Inv(V(), {}) && RankedAll(V(), rank) && V() == Moved(old(V()), Movable(old(V()), from), from, to)
      ensures edges.Keys == old(edges).Keys && nodes.Keys == old(nodes).Keys && ext == old(ext)
      ensures forall e :: e in old(edges) ==>
                edges[e] == if old(edges)[e].bs == from && old(edges)[e].role != Backing
                            then old(edges)[e].(bs := to) else old(edges)[e]
    {
      hide Inv, RankedAll, ParentsAbove, Moved;
      ghost var v := V();
      Referenced(v, {});
      MovedNone(v, from, to);
      var todo := set e | e in edges && edges[e].bs == from;
      ghost var done: set<Edge> := {};
      while todo != {}
        invariant todo <= InEdges(v.edges, from) && done == Movable(v, from) - todo
        invariant V() == Moved(v, done, from, to) && Inv(V(), {}) && RankedAll(V(), rank)
        decreases |todo|
      {
        var c :| c in todo;
        todo := todo - {c};
        MovedEdge(v, done, from, to, c);
        if edges[c].role == Backing {
          continue;
        }
        MoveParent(from, to, c, v, done, rank);
        done := done + {c};
      }
      assert done == Movable(v, from);
      MovedMeans(v, from, to);
    }

    /** One turn of that loop. */
    method MoveParent(from: Node, to: Node, c: Edge, ghost v: View, ghost done: set<Edge>, ghost rank: map<Node, nat>)
      requires from in v.nodes && to in v.nodes && from != to && v.ext.Keys == v.nodes.Keys && v.ext[from] > 0
      requires V() == Moved(v, done, from, to) && Inv(V(), {}) && RankedAll(v, rank)
      requires done <= Movable(v, from) && c in Movable(v, from) && c !in done && c in edges
      requires ParentsAbove(v, Movable(v, from), to, rank)
      modifies this
      ensures V() == Moved(v, done + {c}, from, to) && Inv(V(), {}) && RankedAll(V(), rank)
    {
      hide Inv, RankedAll, ParentsAbove, Moved, AddRef, ReplaceChild, Ranked, Cascaded, OnlyBelow, Released;
      ghost var v0 := V();
      TurnReady(v, v0, done, from, to, c);
      TurnDone(v, v0, done, from, to, c);
      MovedRank(v, done, from, to, c, rank);
      Ref(to);
      ghost var v1 := V();
      ReplaceChildIs(v0, v1, c, to);
      edges := edges[c := edges[c].(bs := to)];
      ext := ext[to := ext[to] - 1];
      ext := ext[from := ext[from] + 1];
      assert V() == ReplaceChild(v1, c, to);
      Unref(from, {}, rank);
    }

    /** bdrv_append, which takes over the caller's reference to `overlay`. `relinked` is the graph before that
        reference is given up. */
    method Append(overlay: Node, top: Node) returns (ghost relinked: View)
      requires Inv(V(), {}) && Acyclic(V()) && overlay in nodes && top in nodes && overlay != top && nodes[overlay].drv
      requires overlay in ext && ext[overlay] > 0
      requires OnlyOverlay(V(), top, overlay) && ParentsApart(V(), top, overlay) && !Reaches(edges, top, overlay)
      modifies this
      ensures Inv(V(), {}) && Acyclic(V())
      ensures Relinked(Moved(old(V()), Movable(old(V()), top), top, overlay), relinked, overlay, Some(top))
      ensures Cascaded(relinked, V(), {}) && Released(relinked, V(), Some(overlay))
      ensures forall e :: e in old(edges) && old(edges)[e].bs == top && old(edges)[e].role != Backing ==>
                overlay in nodes && e in edges && edges[e] == old(edges)[e].(bs := overlay)
      ensures overlay in nodes ==> BackingOf(V(), overlay) == Some(top)
    {
      hide Inv, Relinked, Moved, RankedAll, Ranked, Cascaded, OnlyBelow, Released, ParentsAbove, ParentsApart,
           OnlyOverlay, Reaches, BackingOf;
      ghost var es := Movable(V(), top);
      ghost var rank := AppendRank(V(), overlay, top);
      AppendLinks(overlay, top, rank);
      relinked := V();
      forall e | e in es ensures relinked.nodes[overlay].refcnt > 1 {
        OverlayHeld(relinked, overlay, e);
      }
      RankedEdges(relinked, rank, overlay);
      BackingOfDrop(relinked, overlay, overlay);
      Unref(overlay, {}, rank);
      StillRanked(relinked, V(), rank);
      if overlay in nodes {
        BackingSurvives(relinked, V(), overlay);
      }
      forall e | e in old(edges) && old(edges)[e].bs == top && old(edges)[e].role != Backing
        ensures overlay in nodes && e in edges && edges[e] == old(edges)[e].(bs := overlay)
      {
        assert e in es;
      }
    }

    /** bdrv_append but for its last step. */
    method AppendLinks(overlay: Node, top: Node, ghost rank: map<Node, nat>)
      requires Inv(V(), {}) && RankedAll(V(), rank) && overlay in nodes && top in nodes && overlay != top
      requires nodes[overlay].drv
      requires overlay in ext && ext[overlay] > 0 && OnlyOverlay(V(), top, overlay)
      requires rank[top] < rank[overlay] && ParentsAbove(V(), Movable(V(), top), overlay, rank)
      modifies this
      ensures Inv(V(), {}) && RankedAll(V(), rank)
      ensures Relinked(Moved(old(V()), Movable(old(V()), top), top, overlay), V(), overlay, Some(top))
      ensures overlay in nodes && overlay in ext && ext[overlay] > 0 && BackingOf(V(), overlay) == Some(top)
      ensures forall e :: e in Movable(old(V()), top) ==> e in edges && edges[e] == old(edges)[e].(bs := overlay)
    {
      hide Inv, Relinked, Moved, AddRef, RankedAll, Ranked, Cascaded, OnlyBelow, Released, ParentsAbove, OnlyOverlay,
           BackingOf;
      ghost var v := V();
      ghost var es := Movable(v, top);
      AppendStart(v, overlay, top, rank);
      Ref(top);
      ghost var v1 := V();
      ChangeParentBackingLink(top, overlay, rank);
      ghost var v2 := V();
      MovedShape(v1, es, top, overlay);
      Rebase(overlay, top, rank);
      ghost var v3 := V();
      Appended(v, v2, v3, es, top, overlay);
      AppendedBelow(v, v2, v3, es, top, overlay, rank);
      forall e | e in es ensures e in v3.edges && v3.edges[e] == v.edges[e].(bs := overlay) {
        MovedStay(v1, v3, es, top, overlay, rank, e);
      }
      RankedEdges(v3, rank, top);
      BackingOfDrop(v3, top, overlay);
      Unref(top, {}, rank);
      StillRanked(v3, V(), rank);
    }
  }

  /** The chain from `active` down to its overlay. */
  ghost predicate Spliceable(v: View, s: seq<Node>, active: Node, overlay: Node) {
    BackingPath(v, s) && s[0] == active && s[|s| - 1] == overlay
  }
}
