/** The graph of block nodes: reference counts, parent and child edges, backing blockers
    (qemu/block.c). Pointers are identifiers; what was freed is no longer in the maps. */
module BlockGraph {
  import opened Common

  type Node = nat
  type Edge = nat

  datatype Role = Backing | File | Root

  /** A BdrvChild. Edges from block backends have no parent node. */
  datatype Child = Child(bs: Node, role: Role, parent: Option<Node>)

  /** A BlockDriverState. `blockers` holds (operation, owner of the blocker's reason). */
  datatype Bds = Bds(refcnt: int, backing: Option<Edge>, file: Option<Edge>, drv: bool, blockers: set<(BlockOp, Node)>)

  /** BlockOpType */
  datatype BlockOp =
    | BackupSource | BackupTarget | Change | CommitSource | CommitTarget | Dataplane | DriveDel | Eject
    | ExternalSnapshot | InternalSnapshot | InternalSnapshotDelete | MirrorSource | MirrorTarget | Resize | Stream
    | Replace

  /** bdrv_op_block_all and then bdrv_op_unblock of the commit target, for the reason of `owner`. */
  function BackingBlockers(owner: Node): set<(BlockOp, Node)> {
    set op: BlockOp | op != CommitTarget :: (op, owner)
  }

  /** bdrv_op_unblock_all */
  function Unblock(blockers: set<(BlockOp, Node)>, owner: Node): set<(BlockOp, Node)> {
    set b | b in blockers && b.1 != owner
  }

  /** A snapshot of the graph, with the references that the rest of the program holds. */
  datatype View = View(nodes: map<Node, Bds>, edges: map<Edge, Child>, ext: map<Node, nat>)

  ghost function InEdges(edges: map<Edge, Child>, n: Node): set<Edge> {
    set e | e in edges && edges[e].bs == n
  }

  /** Edges lead from nodes to nodes and are where their parent's fields say. */
  ghost predicate EdgesOk(v: View) {
    forall e :: e in v.edges ==> EdgeOk(v, e)
  }

  ghost predicate EdgeOk(v: View, e: Edge)
    requires e in v.edges
  {
    var c := v.edges[e];
    && c.bs in v.nodes
    && (c.role == Root <==> c.parent == None)
    && (c.parent.Some? ==> c.parent.value in v.nodes)
    && (c.role == Backing ==> v.nodes[c.parent.value].backing == Some(e))
    && (c.role == File ==> v.nodes[c.parent.value].file == Some(e))
  }

  ghost predicate PointsTo(edges: map<Edge, Child>, field: Option<Edge>, role: Role, n: Node) {
    field.Some? ==> field.value in edges && edges[field.value].role == role && edges[field.value].parent == Some(n)
  }

  /** A node's fields point at its own edges. */
  ghost predicate FieldsOk(v: View, n: Node)
    requires n in v.nodes
  {
    && PointsTo(v.edges, v.nodes[n].backing, Backing, n) && PointsTo(v.edges, v.nodes[n].file, File, n)
    && (v.nodes[n].backing.Some? || v.nodes[n].file.Some? ==> v.nodes[n].drv)
  }

  /** The reference count is the number of incoming edges plus the references held elsewhere. */
  ghost predicate Counted(v: View) {
    && v.ext.Keys == v.nodes.Keys
    && forall n :: n in v.nodes ==> v.nodes[n].refcnt == |InEdges(v.edges, n)| + v.ext[n]
  }

  ghost predicate IsBackingEdge(edges: map<Edge, Child>, m: Node, n: Node) {
    exists e :: e in edges && edges[e] == Child(n, Backing, Some(m))
  }

  /** A node is blocked exactly by the nodes it is the backing file of, for all operations but one. */
  ghost predicate Blocked(v: View) {
    forall n: Node, op: BlockOp, m: Node :: n in v.nodes ==>
      ((op, m) in v.nodes[n].blockers <==> op != CommitTarget && IsBackingEdge(v.edges, m, n))
  }

  /** The nodes outside `busy` have their fields in order and are referenced. */
  ghost predicate Settled(v: View, busy: set<Node>) {
    forall n :: n in v.nodes && n !in busy ==> FieldsOk(v, n) && v.nodes[n].refcnt > 0
  }

  ghost predicate Inv(v: View, busy: set<Node>) {
    EdgesOk(v) && Counted(v) && Blocked(v) && Settled(v, busy)
  }

  /** `rank` goes down along every edge, so the graph has no cycle. */
  ghost predicate Ranked(edges: map<Edge, Child>, rank: map<Node, nat>) {
    forall e :: e in edges ==>
      edges[e].bs in rank
      && (edges[e].parent.Some? ==> edges[e].parent.value in rank && rank[edges[e].bs] < rank[edges[e].parent.value])
  }

  /** The survivors of a cascade keep their fields and edges; the nodes of `loose` may differ. */
  ghost predicate Cascaded(v: View, v': View, loose: set<Node>) {
    && v'.nodes.Keys <= v.nodes.Keys
    && (forall m :: m in v'.nodes && m !in loose ==>
          v'.nodes[m].backing == v.nodes[m].backing && v'.nodes[m].file == v.nodes[m].file
            && v'.nodes[m].drv == v.nodes[m].drv)
    && (forall e :: e in v'.edges ==> e in v.edges && v'.edges[e] == v.edges[e])
    && (forall e :: e in v.edges && (v.edges[e].parent.Some? ==> v.edges[e].parent.value !in loose) ==>
          (e in v'.edges <==> (v.edges[e].parent.Some? ==> v.edges[e].parent.value in v'.nodes)))
  }

  /** Nodes that are not below `n` are left alone. */
  ghost predicate OnlyBelow(v: View, v': View, rank: map<Node, nat>, n: Node) {
    n in rank && forall m :: m in v.nodes && m in rank && rank[n] < rank[m] ==>
        m in v'.nodes && v'.nodes[m] == v.nodes[m]
  }

  /** One reference to `n` was given up (none if `n` is None); whoever was deleted was held by no other. */
  ghost predicate Released(v: View, v': View, n: Option<Node>) {
    && v.ext.Keys == v.nodes.Keys && v'.ext.Keys == v'.nodes.Keys
    && (forall m :: m in v.nodes && m in v'.nodes ==> v'.ext[m] + (if n == Some(m) then 1 else 0) == v.ext[m])
    && (forall m :: m in v.nodes && m !in v'.nodes ==> v.ext[m] == if n == Some(m) then 1 else 0)
  }

  // The elementary changes.

  ghost function DropRef(v: View, n: Node): View
    requires n in v.nodes && n in v.ext && v.ext[n] > 0
  {
    v.(nodes := v.nodes[n := v.nodes[n].(refcnt := v.nodes[n].refcnt - 1)], ext := v.ext[n := v.ext[n] - 1])
  }

  /** Edge `e` is gone; the reference it stood for is held by the code that removed it. */
  ghost function Detach(v: View, e: Edge): View
    requires e in v.edges && v.edges[e].bs in v.ext
  {
    v.(edges := v.edges - {e}, ext := v.ext[v.edges[e].bs := v.ext[v.edges[e].bs] + 1])
  }

  ghost function Unblocked(v: View, owner: Node, c: Node): View
    requires c in v.nodes
  {
    v.(nodes := v.nodes[c := v.nodes[c].(blockers := Unblock(v.nodes[c].blockers, owner))])
  }

  ghost function Erase(v: View, n: Node): View {
    v.(nodes := v.nodes - {n}, ext := v.ext - {n})
  }

  lemma DropRefInv(v: View, busy: set<Node>, n: Node)
    requires Inv(v, busy) && n in v.nodes && n !in busy && n in v.ext && v.ext[n] > 0
    ensures Inv(DropRef(v, n), if v.nodes[n].refcnt == 1 then busy + {n} else busy)
    ensures Cascaded(v, DropRef(v, n), {}) && FieldsOk(DropRef(v, n), n)
  {
    assert FieldsOk(v, n);
    hide Cascaded, Blocked, Settled, EdgesOk, FieldsOk, Counted, DropRef;
    var v' := DropRef(v, n);
    DropRefShape(v, n);
    DropRefCounted(v, n);
    assert v'.nodes.Keys == v.nodes.Keys;
    SettledMore(v, busy, n);
    FieldsReplaced(v, v', busy + {n}, n);
    SettledAgain(v', busy, n);
    BlockedSame(v, v');
    DropRefCascaded(v, n);
  }

  lemma DropRefShape(v: View, n: Node)
    requires n in v.nodes && n in v.ext && v.ext[n] > 0
    ensures var v' := DropRef(v, n);
            && v'.nodes.Keys == v.nodes.Keys && v'.edges == v.edges
            && (forall m :: m in v.nodes && m != n ==> v'.nodes[m] == v.nodes[m])
            && v'.nodes[n] == v.nodes[n].(refcnt := v.nodes[n].refcnt - 1) && (FieldsOk(v, n) ==> FieldsOk(v', n))
  {
  }

  lemma DropRefCounted(v: View, n: Node)
    requires Counted(v) && n in v.nodes && n in v.ext && v.ext[n] > 0
    ensures Counted(DropRef(v, n)) && v.nodes[n].refcnt > 0
  {
  }

  lemma SettledMore(v: View, busy: set<Node>, n: Node)
    requires Settled(v, busy)
    ensures Settled(v, busy + {n})
  {
  }

  lemma SettledAgain(v: View, busy: set<Node>, n: Node)
    requires Settled(v, busy + {n}) && n in v.nodes && FieldsOk(v, n)
    ensures v.nodes[n].refcnt > 0 ==> Settled(v, busy)
  {
  }

  lemma BlockedSame(v: View, v': View)
    requires Blocked(v) && v'.edges == v.edges && v'.nodes.Keys == v.nodes.Keys
    requires forall m :: m in v.nodes ==> v'.nodes[m].blockers == v.nodes[m].blockers
    ensures Blocked(v')
  {
    forall n: Node, op: BlockOp, m: Node | n in v'.nodes
      ensures (op, m) in v'.nodes[n].blockers <==> op != CommitTarget && IsBackingEdge(v'.edges, m, n)
    {
    }
  }

  lemma DropRefCascaded(v: View, n: Node)
    requires EdgesOk(v) && n in v.nodes && n in v.ext && v.ext[n] > 0
    ensures Cascaded(v, DropRef(v, n), {})
  {
    forall e | e in v.edges ensures v.edges[e].parent.Some? ==> v.edges[e].parent.value in v.nodes {
      assert EdgeOk(v, e);
    }
  }

  /** Removing an edge. */
  lemma InEdgesDetach(edges: map<Edge, Child>, e: Edge, n: Node)
    requires e in edges
    ensures |InEdges(edges - {e}, n)| == |InEdges(edges, n)| - (if edges[e].bs == n then 1 else 0)
  {
    var a, b := InEdges(edges, n), InEdges(edges - {e}, n);
    if edges[e].bs == n {
      assert b == a - {e};
    } else {
      assert b == a;
    }
  }

  lemma DetachCounted(v: View, e: Edge)
    requires Counted(v) && EdgesOk(v) && e in v.edges
    ensures Counted(Detach(v, e))
  {
    assert EdgeOk(v, e);
    var v' := Detach(v, e);
    forall n | n in v'.nodes ensures v'.nodes[n].refcnt == |InEdges(v'.edges, n)| + v'.ext[n] {
      InEdgesDetach(v.edges, e, n);
    }
  }

  lemma DetachBlocked(v: View, e: Edge, n: Node, c: Node)
    requires Blocked(v) && EdgesOk(v) && e in v.edges && v.edges[e] == Child(c, Backing, Some(n)) && c in v.nodes
    requires c in v.ext
    ensures Blocked(Detach(Unblocked(v, n, c), e))
  {
    var v' := Detach(Unblocked(v, n, c), e);
    SoleBackingEdge(v, e, n);
    forall k: Node, op: BlockOp, m: Node | k in v'.nodes
      ensures (op, m) in v'.nodes[k].blockers <==> op != CommitTarget && IsBackingEdge(v'.edges, m, k)
    {
      assert (op, m) in v.nodes[k].blockers <==> op != CommitTarget && IsBackingEdge(v.edges, m, k);
      if m != n && IsBackingEdge(v.edges, m, k) {
        var d :| d in v.edges && v.edges[d] == Child(k, Backing, Some(m));
        assert d in v'.edges;
      }
    }
  }

  /** A node has one backing edge at most. */
  lemma SoleBackingEdge(v: View, e: Edge, n: Node)
    requires EdgesOk(v) && e in v.edges && v.edges[e].role == Backing && v.edges[e].parent == Some(n)
    ensures forall d :: d in v.edges && v.edges[d].role == Backing && v.edges[d].parent == Some(n) ==> d == e
    ensures forall k :: IsBackingEdge(v.edges, n, k) ==> k == v.edges[e].bs
  {
    assert EdgeOk(v, e);
    forall d | d in v.edges && v.edges[d].role == Backing && v.edges[d].parent == Some(n)
      ensures d == e
    {
      assert EdgeOk(v, d);
    }
  }

  /** Removing the backing edge of a busy node, after lifting its blockers. */
  lemma DetachBackingInv(v: View, busy: set<Node>, n: Node, e: Edge)
    requires Inv(v, busy) && n in busy && n in v.nodes && e in v.edges && v.edges[e].role == Backing
    requires v.edges[e].parent == Some(n)
    ensures v.edges[e].bs in v.nodes
    ensures var v' := Detach(Unblocked(v, n, v.edges[e].bs), e); Inv(v', busy) && Cascaded(v, v', {n})
  {
    hide Cascaded, Blocked, Settled, InEdges;
    assert EdgeOk(v, e);
    var c := v.edges[e].bs;
    var v1 := Unblocked(v, n, c);
    var v' := Detach(v1, e);
    assert v1.nodes.Keys == v.nodes.Keys;
    assert EdgesOk(v1) by {
      forall d | d in v1.edges ensures EdgeOk(v1, d) { assert EdgeOk(v, d); }
    }
    DetachCounted(v1, e);
    DetachBlocked(v, e, n, c);
    DetachSettled(v, v', busy, n, e);
  }

  lemma DetachSettled(v: View, v': View, busy: set<Node>, n: Node, e: Edge)
    requires EdgesOk(v) && Settled(v, busy) && n in busy && e in v.edges && v.edges[e].parent == Some(n)
    requires v'.edges == v.edges - {e} && v'.nodes.Keys == v.nodes.Keys
    requires forall m :: m in v.nodes ==> v'.nodes[m] == v.nodes[m].(blockers := v'.nodes[m].blockers)
    ensures EdgesOk(v') && Settled(v', busy) && Cascaded(v, v', {n})
  {
    forall d | d in v'.edges ensures EdgeOk(v', d) {
      assert EdgeOk(v, d);
    }
    forall m | m in v'.nodes && m !in busy ensures FieldsOk(v', m) && v'.nodes[m].refcnt > 0 {
      assert FieldsOk(v, m);
    }
    forall d | d in v.edges && (v.edges[d].parent.Some? ==> v.edges[d].parent.value !in {n})
      ensures d in v'.edges <==> (v.edges[d].parent.Some? ==> v.edges[d].parent.value in v'.nodes)
    {
      assert EdgeOk(v, d);
    }
  }

  lemma DetachFileInv(v: View, busy: set<Node>, n: Node, e: Edge)
    requires Inv(v, busy) && n in busy && n in v.nodes && e in v.edges && v.edges[e].role == File
    requires v.edges[e].parent == Some(n)
    ensures v.edges[e].bs in v.nodes
    ensures Inv(Detach(v, e), busy) && Cascaded(v, Detach(v, e), {n})
  {
    assert EdgeOk(v, e);
    var v' := Detach(v, e);
    DetachCounted(v, e);
    DetachSettled(v, v', busy, n, e);
    forall k: Node, op: BlockOp, m: Node | k in v'.nodes
      ensures (op, m) in v'.nodes[k].blockers <==> op != CommitTarget && IsBackingEdge(v'.edges, m, k)
    {
      assert (op, m) in v.nodes[k].blockers <==> op != CommitTarget && IsBackingEdge(v.edges, m, k);
      if IsBackingEdge(v.edges, m, k) {
        var d :| d in v.edges && v.edges[d] == Child(k, Backing, Some(m));
        assert d in v'.edges;
      }
    }
  }

  lemma CascadedThen(v0: View, v1: View, v2: View, loose: set<Node>)
    requires Cascaded(v0, v1, loose) && Cascaded(v1, v2, loose)
    ensures Cascaded(v0, v2, loose)
  {
  }

  lemma CascadedLooser(v: View, v': View, loose: set<Node>)
    requires Cascaded(v, v', {})
    ensures Cascaded(v, v', loose)
  {
  }

  /** Moving a node's pointers when it has no such edge any more. */
  lemma FieldCleared(v: View, busy: set<Node>, n: Node, bds: Bds)
    requires Inv(v, busy) && n in busy && n in v.nodes
    requires bds == v.nodes[n].(backing := bds.backing, file := bds.file, drv := bds.drv)
    requires bds.backing == v.nodes[n].backing || forall e :: e in v.edges && v.edges[e].role == Backing ==>
               v.edges[e].parent != Some(n)
    requires bds.file == v.nodes[n].file || forall e :: e in v.edges && v.edges[e].role == File ==>
               v.edges[e].parent != Some(n)
    ensures Inv(v.(nodes := v.nodes[n := bds]), busy) && Cascaded(v, v.(nodes := v.nodes[n := bds]), {n})
  {
    hide Cascaded, Blocked, Settled;
    var v' := v.(nodes := v.nodes[n := bds]);
    FieldsReplaced(v, v', busy, n);
    BlockedSame(v, v');
  }

  lemma FieldsReplaced(v: View, v': View, busy: set<Node>, n: Node)
    requires EdgesOk(v) && Settled(v, busy) && n in busy && n in v.nodes && v'.edges == v.edges
    requires v'.nodes.Keys == v.nodes.Keys
    requires forall m :: m in v.nodes && m != n ==> v'.nodes[m] == v.nodes[m]
    requires v'.nodes[n].backing == v.nodes[n].backing || forall e :: e in v.edges && v.edges[e].role == Backing ==>
               v.edges[e].parent != Some(n)
    requires v'.nodes[n].file == v.nodes[n].file || forall e :: e in v.edges && v.edges[e].role == File ==>
               v.edges[e].parent != Some(n)
    ensures EdgesOk(v') && Settled(v', busy) && Cascaded(v, v', {n})
  {
    forall e | e in v'.edges ensures EdgeOk(v', e) {
      assert EdgeOk(v, e);
    }
    forall m | m in v'.nodes && m !in busy ensures FieldsOk(v', m) && v'.nodes[m].refcnt > 0 {
      assert FieldsOk(v, m);
    }
  }

  ghost predicate NoChildren(edges: map<Edge, Child>, n: Node) {
    forall e :: e in edges ==> edges[e].parent != Some(n)
  }

  /** Freeing a node without references and children. */
  lemma EraseInv(v: View, busy: set<Node>, n: Node)
    requires Inv(v, busy) && n in busy && n in v.nodes && v.nodes[n].refcnt == 0 && NoChildren(v.edges, n)
    ensures Inv(Erase(v, n), busy - {n}) && v.nodes[n].blockers == {} && v.ext[n] == 0
  {
    var v' := Erase(v, n);
    assert InEdges(v.edges, n) == {} && v.ext[n] == 0;
    forall e | e in v'.edges ensures EdgeOk(v', e) {
      assert EdgeOk(v, e);
      assert e !in InEdges(v.edges, n);
    }
    forall m | m in v'.nodes && m !in busy - {n} ensures FieldsOk(v', m) && v'.nodes[m].refcnt > 0 {
      assert FieldsOk(v, m);
    }
    if v.nodes[n].blockers != {} {
      BlockerIncoming(v, n);
    }
  }

  /** Freeing a node without references is sound if and only if it has no children left. bdrv_close gives them up
      only if the node has a driver, so the edges of a node without one would stay behind. */
  lemma EraseOnlyChildless(v: View, busy: set<Node>, n: Node)
    requires Inv(v, busy) && n in busy && n in v.nodes && v.nodes[n].refcnt == 0
    ensures Inv(Erase(v, n), busy - {n}) <==> NoChildren(v.edges, n)
  {
    if NoChildren(v.edges, n) {
      EraseInv(v, busy, n);
    } else {
      var e :| e in v.edges && v.edges[e].parent == Some(n);
      assert !EdgeOk(Erase(v, n), e);
    }
  }

  /** A node without a driver that has a backing file: the walk of bdrv_unref passes it by, and its edge, and with it
      a reference to the backing file, outlives it. */
  lemma LeakWithoutDriver()
    ensures exists v: View :: Inv(v, {1}) && 1 in v.nodes && v.nodes[1].refcnt == 0 && !v.nodes[1].drv
                              && !Inv(Erase(v, 1), {})
  {
    var edges := map[5 := Child(0, Backing, Some(1))];
    var v := View(map[0 := Bds(1, None, None, true, BackingBlockers(1)), 1 := Bds(0, Some(5), None, false, {})],
                  edges, map[0 := 0, 1 := 0]);
    assert InEdges(edges, 0) == {5} && InEdges(edges, 1) == {};
    assert Inv(v, {1});
    hide BackingBlockers, InEdges, Counted, Blocked, Settled;
    assert edges[5].parent == Some(1);
    assert !EdgeOk(Erase(v, 1), 5);
  }

  /** A blocked node has an incoming edge. */
  lemma BlockerIncoming(v: View, n: Node)
    requires Blocked(v) && n in v.nodes && v.nodes[n].blockers != {}
    ensures InEdges(v.edges, n) != {}
  {
    var b :| b in v.nodes[n].blockers;
    assert (b.0, b.1) in v.nodes[n].blockers;
    var e :| e in v.edges && v.edges[e] == Child(n, Backing, Some(b.1));
    assert e in InEdges(v.edges, n);
  }

  /** A node is blocked for its overlay's sake, for everything but being the target of a commit. */
  lemma BlockedBy(v: View, busy: set<Node>, n: Node, c: Node)
    requires Inv(v, busy) && c in v.nodes && IsBackingEdge(v.edges, n, c)
    ensures forall op :: (op, n) in v.nodes[c].blockers <==> op != CommitTarget
  {
    hide IsBackingEdge, Counted, EdgesOk, Settled;
  }

  lemma EraseCascaded(v: View, v': View, n: Node)
    requires Cascaded(v, v', {n}) && NoChildren(v'.edges, n)
    ensures Cascaded(v, Erase(v', n), {})
  {
  }

  lemma OnlyBelowThen(v0: View, v1: View, v2: View, rank: map<Node, nat>, n: Node, c: Node)
    requires OnlyBelow(v0, v1, rank, n) && OnlyBelow(v1, v2, rank, c) && rank[c] <= rank[n]
    ensures OnlyBelow(v0, v2, rank, n)
  {
  }

  lemma RankedKept(v: View, v': View, rank: map<Node, nat>, loose: set<Node>)
    requires Ranked(v.edges, rank) && Cascaded(v, v', loose)
    ensures Ranked(v'.edges, rank) && v'.edges.Keys <= v.edges.Keys
  {
  }

  lemma ReleasedThen(v0: View, v1: View, v2: View, n: Option<Node>)
    requires Released(v0, v1, n) && Released(v1, v2, None) && v2.nodes.Keys <= v1.nodes.Keys <= v0.nodes.Keys
    ensures Released(v0, v2, n)
  {
  }

  /** Removing an edge and giving up the reference it stood for. */
  lemma ReleasedDetach(v: View, v1: View, v': View, c: Node)
    requires v.ext.Keys == v.nodes.Keys == v1.nodes.Keys && c in v.ext && v1.ext == v.ext[c := v.ext[c] + 1]
    requires Released(v1, v', Some(c)) && v'.nodes.Keys <= v1.nodes.Keys
    ensures Released(v, v', None)
  {
  }

  /** What is below a child is below its parent. */
  lemma OnlyBelowChild(v: View, v1: View, v': View, rank: map<Node, nat>, n: Node, c: Node)
    requires n in rank && c in rank && rank[c] < rank[n] && OnlyBelow(v1, v', rank, c)
    requires v1.nodes.Keys == v.nodes.Keys && forall m :: m in v.nodes && m != c ==> v1.nodes[m] == v.nodes[m]
    ensures OnlyBelow(v, v', rank, n)
    ensures n in v.nodes ==> n in v'.nodes && v'.nodes[n] == v.nodes[n]
  {
  }

  /** The nodes being deleted are all above `n`. */
  ghost predicate BelowBusy(nodes: map<Node, Bds>, busy: set<Node>, rank: map<Node, nat>, n: Node) {
    n in rank && forall b :: b in busy ==> b in nodes && b in rank && rank[n] < rank[b]
  }

  lemma EdgeRemoved(edges: map<Edge, Child>, e: Edge)
    requires e in edges
    ensures |edges - {e}| == |edges| - 1
  {
    assert (edges - {e}).Keys == edges.Keys - {e};
  }

  lemma CascadedKeys(v: View, v': View, loose: set<Node>)
    requires Cascaded(v, v', loose)
    ensures v'.nodes.Keys <= v.nodes.Keys && v'.edges.Keys <= v.edges.Keys && |v'.edges| <= |v.edges|
  {
    SubsetSize(v'.edges.Keys, v.edges.Keys);
  }

  lemma {:induction false} SubsetSize<T>(a: set<T>, b: set<T>)
    requires a <= b
    ensures |a| <= |b|
  {
    assert b == a + (b - a);
  }

  lemma DropRefReleased(v: View, busy: set<Node>, n: Node, rank: map<Node, nat>)
    requires Inv(v, busy) && n in v.nodes && n in v.ext && v.ext[n] > 0 && n in rank
    ensures Released(v, DropRef(v, n), Some(n)) && OnlyBelow(v, DropRef(v, n), rank, n)
    ensures v.nodes[n].refcnt == 1 || n in busy || DropRef(v, n).nodes[n].refcnt > 0
  {
  }

  ghost function WithoutChild(v: View, n: Node, e: Edge): View
    requires e in v.edges && v.edges[e].bs in v.ext && v.edges[e].bs in v.nodes
  {
    Detach(if v.edges[e].role == Backing then Unblocked(v, n, v.edges[e].bs) else v, e)
  }

  lemma WithoutChildShape(v: View, n: Node, e: Edge)
    requires e in v.edges && v.edges[e].bs in v.ext && v.edges[e].bs in v.nodes
    ensures var c, v' := v.edges[e].bs, WithoutChild(v, n, e);
            && v'.nodes.Keys == v.nodes.Keys && (forall m :: m in v.nodes && m != c ==> v'.nodes[m] == v.nodes[m])
            && v'.ext == v.ext[c := v.ext[c] + 1] && v'.edges == v.edges - {e}
  {
  }

  lemma ChildBelow(v: View, busy: set<Node>, n: Node, e: Edge, rank: map<Node, nat>)
    requires Inv(v, busy + {n}) && Ranked(v.edges, rank) && BelowBusy(v.nodes, busy, rank, n)
    requires n in v.nodes && e in v.edges && v.edges[e].parent == Some(n)
    ensures var c := v.edges[e].bs;
            && c in v.nodes && c in v.ext && c in rank && n in rank && rank[c] < rank[n] && c !in busy + {n}
            && v.ext.Keys == v.nodes.Keys && v.edges[e].role != Root
  {
    hide Blocked, Settled, InEdges;
    assert EdgeOk(v, e);
  }

  /** What giving up a child may rely on. */
  lemma UnrefChildReady(v: View, busy: set<Node>, n: Node, e: Edge, rank: map<Node, nat>)
    requires Inv(v, busy + {n}) && Ranked(v.edges, rank) && BelowBusy(v.nodes, busy, rank, n)
    requires n in v.nodes && e in v.edges && v.edges[e].parent == Some(n)
    requires v.edges[e].bs in v.nodes && v.edges[e].bs in v.ext
    ensures var c, v' := v.edges[e].bs, WithoutChild(v, n, e);
            && Inv(v', busy + {n}) && Cascaded(v, v', {n}) && v'.ext[c] > 0 && Ranked(v'.edges, rank)
            && BelowBusy(v'.nodes, busy + {n}, rank, c) && |v'.edges| < |v.edges|
  {
    hide Inv, Ranked, Cascaded, Unblock;
    ChildBelow(v, busy, n, e, rank);
    EdgeRemoved(v.edges, e);
    if v.edges[e].role == Backing {
      DetachBackingInv(v, busy + {n}, n, e);
    } else {
      DetachFileInv(v, busy + {n}, n, e);
    }
    RankedKept(v, WithoutChild(v, n, e), rank, {n});
  }

  lemma UnrefChildDone(v0: View, v1: View, v2: View, busy: set<Node>, n: Node, c: Node, rank: map<Node, nat>)
    requires c in v0.nodes && n in v0.nodes && v0.ext.Keys == v0.nodes.Keys == v1.nodes.Keys
    requires v1.ext == v0.ext[c := v0.ext[c] + 1]
    requires forall m :: m in v0.nodes && m != c ==> v1.nodes[m] == v0.nodes[m]
    requires n in rank && c in rank && rank[c] < rank[n] && BelowBusy(v0.nodes, busy, rank, n)
    requires Cascaded(v1, v2, {}) && OnlyBelow(v1, v2, rank, c) && Released(v1, v2, Some(c))
    ensures OnlyBelow(v0, v2, rank, n) && Released(v0, v2, None) && BelowBusy(v2.nodes, busy, rank, n)
    ensures n in v2.nodes && v2.nodes[n] == v0.nodes[n]
  {
    hide Cascaded, Released, OnlyBelow, BelowBusy;
    CascadedKeys(v1, v2, {});
    ReleasedDetach(v0, v1, v2, c);
    OnlyBelowChild(v0, v1, v2, rank, n, c);
    StillBelowBusy(v0, v2, busy, rank, n);
  }

  lemma ChildGone(v0: View, v1: View, v2: View, n: Node, e: Edge)
    requires v1.edges == v0.edges - {e} && Cascaded(v0, v1, {n}) && Cascaded(v1, v2, {}) && n in v2.nodes
    ensures Cascaded(v0, v2, {n}) && e !in v2.edges && |v2.edges| <= |v1.edges|
    ensures forall d :: d in v0.edges && v0.edges[d].parent == Some(n) && d != e ==>
              d in v2.edges && v2.edges[d] == v0.edges[d]
  {
    hide Cascaded;
    CascadedLooser(v1, v2, {n});
    CascadedThen(v0, v1, v2, {n});
    CascadedKeys(v1, v2, {});
    OtherChildren(v1, v2, n);
  }

  lemma StillBelowBusy(v: View, v': View, busy: set<Node>, rank: map<Node, nat>, n: Node)
    requires BelowBusy(v.nodes, busy, rank, n) && OnlyBelow(v, v', rank, n)
    ensures BelowBusy(v'.nodes, busy, rank, n)
  {
  }

  lemma OtherChildren(v: View, v': View, n: Node)
    requires Cascaded(v, v', {}) && n in v'.nodes
    ensures forall d :: d in v.edges && v.edges[d].parent == Some(n) ==> d in v'.edges && v'.edges[d] == v.edges[d]
  {
  }

  lemma NoReferences(v: View, busy: set<Node>, n: Node)
    requires Inv(v, busy) && n in v.nodes && v.nodes[n].refcnt == 0
    ensures v.nodes[n].blockers == {}
  {
    assert InEdges(v.edges, n) == {};
    if v.nodes[n].blockers != {} {
      BlockerIncoming(v, n);
    }
  }

  lemma NeverOpened(v: View, busy: set<Node>, n: Node)
    requires Inv(v, busy) && n in v.nodes && FieldsOk(v, n) && !v.nodes[n].drv
    ensures NoChildren(v.edges, n)
  {
    forall e | e in v.edges ensures v.edges[e].parent != Some(n) {
      assert EdgeOk(v, e);
    }
  }

  /** A node in deletion, while its children are given up. */
  ghost predicate Closing(v0: View, v: View, busy: set<Node>, n: Node, rank: map<Node, nat>) {
    && Inv(v, busy + {n}) && Ranked(v.edges, rank) && BelowBusy(v.nodes, busy, rank, n)
    && Cascaded(v0, v, {n}) && OnlyBelow(v0, v, rank, n) && Released(v0, v, None)
    && n in v0.nodes && n in v.nodes && v.nodes[n].refcnt == v0.nodes[n].refcnt
  }

  lemma ClosingStart(v: View, busy: set<Node>, n: Node, rank: map<Node, nat>)
    requires Inv(v, busy + {n}) && Ranked(v.edges, rank) && BelowBusy(v.nodes, busy, rank, n) && n in v.nodes
    ensures Closing(v, v, busy, n, rank)
  {
    forall e | e in v.edges ensures v.edges[e].parent.Some? ==> v.edges[e].parent.value in v.nodes {
      assert EdgeOk(v, e);
    }
  }

  lemma ClosingReady(v0: View, v: View, busy: set<Node>, n: Node, rank: map<Node, nat>)
    requires Closing(v0, v, busy, n, rank)
    ensures Inv(v, busy + {n}) && Ranked(v.edges, rank) && BelowBusy(v.nodes, busy, rank, n) && |v.edges| <= |v0.edges|
  {
    CascadedKeys(v0, v, {n});
  }

  /** A pointer that leads to no edge tells that the node has none of that role. */
  lemma FieldFree(v: View, busy: set<Node>, n: Node)
    requires Inv(v, busy) && n in v.nodes
    ensures v.nodes[n].backing.None? || v.nodes[n].backing.value !in v.edges ==>
              forall e :: e in v.edges && v.edges[e].role == Backing ==> v.edges[e].parent != Some(n)
    ensures v.nodes[n].file.None? || v.nodes[n].file.value !in v.edges ==>
              forall e :: e in v.edges && v.edges[e].role == File ==> v.edges[e].parent != Some(n)
  {
    hide Counted, Blocked, Settled;
    forall e | e in v.edges ensures EdgeOk(v, e) {
    }
  }

  lemma ReleasedSame(v0: View, v: View, v': View)
    requires Released(v0, v, None) && v'.ext == v.ext && v'.nodes.Keys == v.nodes.Keys
    ensures Released(v0, v', None)
  {
  }

  lemma ClosingField(v0: View, v: View, busy: set<Node>, n: Node, rank: map<Node, nat>, bds: Bds)
    requires Closing(v0, v, busy, n, rank) && n in v.nodes
    requires bds == v.nodes[n].(backing := bds.backing, file := bds.file, drv := bds.drv)
    requires bds.backing == v.nodes[n].backing || v.nodes[n].backing.None? || v.nodes[n].backing.value !in v.edges
    requires bds.file == v.nodes[n].file || v.nodes[n].file.None? || v.nodes[n].file.value !in v.edges
    ensures Closing(v0, v.(nodes := v.nodes[n := bds]), busy, n, rank)
  {
    hide Cascaded, Inv, Ranked, Released;
    var v' := v.(nodes := v.nodes[n := bds]);
    FieldFree(v, busy + {n}, n);
    FieldCleared(v, busy + {n}, n, bds);
    CascadedThen(v0, v, v', {n});
    assert Released(v0, v', None) by {
      ReleasedSame(v0, v, v');
    }
  }

  lemma ClosingChild(v0: View, v: View, v': View, busy: set<Node>, n: Node, rank: map<Node, nat>)
    requires Closing(v0, v, busy, n, rank)
    requires Inv(v', busy + {n}) && Ranked(v'.edges, rank) && BelowBusy(v'.nodes, busy, rank, n)
    requires Cascaded(v, v', {n}) && OnlyBelow(v, v', rank, n) && Released(v, v', None)
    requires n in v.nodes && n in v'.nodes && v'.nodes[n] == v.nodes[n]
    ensures Closing(v0, v', busy, n, rank)
  {
    CascadedThen(v0, v, v', {n});
    OnlyBelowThen(v0, v, v', rank, n, n);
    ReleasedThen(v0, v, v', None);
  }

  lemma Childless(v0: View, v: View, busy: set<Node>, n: Node, rank: map<Node, nat>)
    requires Closing(v0, v, busy, n, rank) && n in v.nodes && v.nodes[n].backing == None && v.nodes[n].file == None
    ensures NoChildren(v.edges, n)
  {
    forall e | e in v.edges ensures v.edges[e].parent != Some(n) {
      assert EdgeOk(v, e);
    }
  }

  /** The last step of a deletion. */
  lemma Erased(v0: View, v: View, busy: set<Node>, n: Node, rank: map<Node, nat>)
    requires Closing(v0, v, busy, n, rank) && NoChildren(v.edges, n) && n !in busy
    requires n in v0.nodes && v0.nodes[n].refcnt == 0
    ensures var v' := Erase(v, n);
            && Inv(v', busy) && Ranked(v'.edges, rank)
            && Cascaded(v0, v', {}) && OnlyBelow(v0, v', rank, n) && Released(v0, v', None)
  {
    EraseInv(v, busy + {n}, n);
    assert busy + {n} - {n} == busy;
    EraseCascaded(v0, v, n);
  }
}
