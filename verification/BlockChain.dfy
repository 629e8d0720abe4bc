/** Paths in the graph of block nodes, and the changes that add or move edges (qemu/block.c). */
module BlockChain {
  import opened Common
  import opened BlockGraph

  /** `p` leads from parent `a` down to `b`. */
  ghost predicate Path(edges: map<Edge, Child>, p: seq<Edge>, a: Node, b: Node) {
    if p == [] then a == b
    else p[0] in edges && edges[p[0]].parent == Some(a) && Path(edges, p[1..], edges[p[0]].bs, b)
  }

  ghost predicate Reaches(edges: map<Edge, Child>, a: Node, b: Node) {
    exists p :: Path(edges, p, a, b)
  }

  ghost predicate RankedAll(v: View, rank: map<Node, nat>) {
    Ranked(v.edges, rank) && v.nodes.Keys <= rank.Keys
  }

  ghost predicate Acyclic(v: View) {
    exists rank: map<Node, nat> :: RankedAll(v, rank)
  }

  lemma {:induction false} PathRank(edges: map<Edge, Child>, rank: map<Node, nat>, p: seq<Edge>, a: Node, b: Node)
    requires Ranked(edges, rank) && a in rank && Path(edges, p, a, b)
    ensures b in rank && rank[b] <= rank[a]
  {
    if p != [] {
      PathRank(edges, rank, p[1..], edges[p[0]].bs, b);
    }
  }

  lemma ReachesRank(edges: map<Edge, Child>, rank: map<Node, nat>, a: Node, b: Node)
    requires Ranked(edges, rank) && a in rank && Reaches(edges, a, b)
    ensures b in rank && rank[b] <= rank[a]
  {
    var p :| Path(edges, p, a, b);
    PathRank(edges, rank, p, a, b);
  }

  lemma ReachesSelf(edges: map<Edge, Child>, a: Node)
    ensures Reaches(edges, a, a)
  {
    assert Path(edges, [], a, a);
  }

  lemma ReachesVia(edges: map<Edge, Child>, e: Edge, b: Node)
    requires e in edges && edges[e].parent.Some? && Reaches(edges, edges[e].bs, b)
    ensures Reaches(edges, edges[e].parent.value, b)
  {
    var p :| Path(edges, p, edges[e].bs, b);
    assert ([e] + p)[1..] == p;
    assert Path(edges, [e] + p, edges[e].parent.value, b);
  }

  lemma {:induction false} RankBound(rank: map<Node, nat>, ms: set<Node>) returns (k: nat)
    requires ms <= rank.Keys
    ensures forall m :: m in ms ==> rank[m] < k
  {
    if ms == {} {
      k := 0;
    } else {
      var m :| m in ms;
      var k' := RankBound(rank, ms - {m});
      k := if rank[m] < k' then k' else rank[m] + 1;
    }
  }

  ghost predicate ReachesAny(edges: map<Edge, Child>, a: Node, xs: set<Node>) {
    exists x :: x in xs && Reaches(edges, a, x)
  }

  /** Everything at or above `xs` can be ranked above everything else. */
  lemma Raise(edges: map<Edge, Child>, rank: map<Node, nat>, xs: set<Node>) returns (rank': map<Node, nat>)
    requires Ranked(edges, rank)
    ensures Ranked(edges, rank') && rank'.Keys == rank.Keys
    ensures forall a :: a in rank && !ReachesAny(edges, a, xs) ==> rank'[a] == rank[a]
    ensures forall a, x :: a in rank && x in rank && x in xs && !ReachesAny(edges, a, xs) ==> rank'[a] < rank'[x]
  {
    var k := RankBound(rank, rank.Keys);
    rank' := map m | m in rank :: rank[m] + if ReachesAny(edges, m, xs) then k else 0;
    forall e | e in edges && edges[e].parent.Some?
      ensures ReachesAny(edges, edges[e].bs, xs) ==> ReachesAny(edges, edges[e].parent.value, xs)
    {
      if ReachesAny(edges, edges[e].bs, xs) {
        var x :| x in xs && Reaches(edges, edges[e].bs, x);
        ReachesVia(edges, e, x);
      }
    }
    forall x | x in xs ensures ReachesAny(edges, x, xs) {
      ReachesSelf(edges, x);
    }
  }

  /** A child that does not reach its new parent can be ranked below it. */
  lemma RankForEdge(v: View, parent: Node, child: Node) returns (rank: map<Node, nat>)
    requires Acyclic(v) && parent in v.nodes && child in v.nodes && !Reaches(v.edges, child, parent)
    ensures RankedAll(v, rank) && rank[child] < rank[parent]
  {
    var rank0: map<Node, nat> :| RankedAll(v, rank0);
    rank := Raise(v.edges, rank0, {parent});
    assert !ReachesAny(v.edges, child, {parent});
  }

  /** Who keeps `n` alive: a reference from outside, or a block backend, at or above it. */
  ghost predicate Held(v: View, a: Node) {
    || (a in v.ext && v.ext[a] > 0)
    || exists e :: e in v.edges && v.edges[e].bs == a && v.edges[e].role == Root
  }

  /** Every node is at or below a held one: nothing leaks. */
  lemma {:induction false} Live(v: View, rank: map<Node, nat>, n: Node, bound: nat) returns (a: Node)
    requires Inv(v, {}) && RankedAll(v, rank) && n in v.nodes
    requires forall m :: m in v.nodes ==> rank[m] < bound
    ensures a in v.nodes && Held(v, a) && Reaches(v.edges, a, n)
    decreases bound - rank[n]
  {
    if Held(v, n) {
      ReachesSelf(v.edges, n);
      a := n;
    } else {
      assert FieldsOk(v, n);
      assert InEdges(v.edges, n) != {};
      var e :| e in InEdges(v.edges, n);
      assert EdgeOk(v, e);
      a := Live(v, rank, v.edges[e].parent.value, bound);
      ReachesThen(v.edges, a, e);
    }
  }

  lemma ReachesThen(edges: map<Edge, Child>, a: Node, e: Edge)
    requires e in edges && edges[e].parent.Some? && Reaches(edges, a, edges[e].parent.value)
    ensures Reaches(edges, a, edges[e].bs)
  {
    var p :| Path(edges, p, a, edges[e].parent.value);
    PathThen(edges, p, a, e);
  }

  lemma {:induction false} PathThen(edges: map<Edge, Child>, p: seq<Edge>, a: Node, e: Edge)
    requires e in edges && edges[e].parent.Some? && Path(edges, p, a, edges[e].parent.value)
    ensures Path(edges, p + [e], a, edges[e].bs)
  {
    if p == [] {
      assert ([] + [e])[1..] == [];
    } else {
      PathThen(edges, p[1..], edges[p[0]].bs, e);
      assert (p + [e])[1..] == p[1..] + [e];
    }
  }

  /** The nodes are exactly what the held nodes reach. */
  lemma LiveNodes(v: View, n: Node)
    requires Inv(v, {}) && Acyclic(v)
    ensures n in v.nodes <==> exists a :: a in v.nodes && Held(v, a) && Reaches(v.edges, a, n)
  {
    if n in v.nodes {
      var rank: map<Node, nat> :| RankedAll(v, rank);
      var bound := RankBound(rank, rank.Keys);
      var a := Live(v, rank, n, bound);
    }
    forall a | a in v.nodes && Reaches(v.edges, a, n) ensures n in v.nodes {
      var p :| Path(v.edges, p, a, n);
      PathLive(v, p, a, n);
    }
  }

  lemma {:induction false} PathLive(v: View, p: seq<Edge>, a: Node, b: Node)
    requires EdgesOk(v) && a in v.nodes && Path(v.edges, p, a, b)
    ensures b in v.nodes
  {
    if p != [] {
      assert EdgeOk(v, p[0]);
      PathLive(v, p[1..], v.edges[p[0]].bs, b);
    }
  }

  /** Once nobody holds a node, none is left: what bdrv_close_all asserts. */
  lemma NothingHeld(v: View)
    requires Inv(v, {}) && Acyclic(v) && forall a :: a in v.nodes ==> !Held(v, a)
    ensures v.nodes == map[] && v.edges == map[]
  {
    forall e | e in v.edges ensures v.edges[e].bs in v.nodes {
      assert EdgeOk(v, e);
    }
    forall n ensures n !in v.nodes {
      LiveNodes(v, n);
    }
  }

  // The changes that add edges or move them.

  ghost function AddRef(v: View, n: Node): View
    requires n in v.nodes && n in v.ext
  {
    v.(nodes := v.nodes[n := v.nodes[n].(refcnt := v.nodes[n].refcnt + 1)], ext := v.ext[n := v.ext[n] + 1])
  }

  lemma SettledAt(v: View, busy: set<Node>, n: Node)
    requires Settled(v, busy) && n in v.nodes && n !in busy
    ensures FieldsOk(v, n) && v.nodes[n].refcnt > 0
  {
  }

  lemma AddRefInv(v: View, busy: set<Node>, n: Node)
    requires Inv(v, busy) && n in v.nodes && n in v.ext && n !in busy
    ensures Inv(AddRef(v, n), busy)
  {
    hide Blocked, Cascaded, Settled;
    var v' := AddRef(v, n);
    assert FieldsOk(v, n) && v.nodes[n].refcnt > 0 by { SettledAt(v, busy, n); }
    assert v'.nodes.Keys == v.nodes.Keys;
    SettledMore(v, busy, n);
    FieldsReplaced(v, v', busy + {n}, n);
    SettledAgain(v', busy, n);
    BlockedSame(v, v');
  }

  /** Adding an edge, which takes over a reference. */
  lemma InEdgesAdd(edges: map<Edge, Child>, e: Edge, c: Child, n: Node)
    requires e !in edges
    ensures |InEdges(edges[e := c], n)| == |InEdges(edges, n)| + if c.bs == n then 1 else 0
  {
    InEdgesDetach(edges[e := c], e, n);
    assert edges[e := c] - {e} == edges;
  }

  /** Node `n` gets backing child `c` by the new edge `e`. */
  ghost function AttachBacking(v: View, n: Node, e: Edge, c: Node): View
    requires n in v.nodes && c in v.nodes && c in v.ext && v.ext[c] > 0 && n != c
  {
    v.(nodes := v.nodes[n := v.nodes[n].(backing := Some(e))]
                       [c := v.nodes[c].(blockers := v.nodes[c].blockers + BackingBlockers(n))],
       edges := v.edges[e := Child(c, Backing, Some(n))],
       ext := v.ext[c := v.ext[c] - 1])
  }

  lemma AttachBackingInv(v: View, n: Node, e: Edge, c: Node)
    requires Inv(v, {n}) && n in v.nodes && c in v.nodes && c in v.ext && v.ext[c] > 0 && n != c && e !in v.edges
    requires v.nodes[n].refcnt > 0 && PointsTo(v.edges, v.nodes[n].file, File, n)
    requires v.nodes[n].backing.Some? ==> v.nodes[n].backing.value !in v.edges
    ensures Inv(AttachBacking(v, n, e, c), {n})
    ensures v.nodes[n].drv ==> Inv(AttachBacking(v, n, e, c), {})
  {
    hide Blocked, Counted, Settled, EdgesOk, AttachBacking;
    AttachEdges(v, n, e, c);
    AttachSettled(v, n, e, c);
    AttachCounted(v, n, e, c);
    AttachBlocked(v, n, e, c);
  }

  lemma AttachEdges(v: View, n: Node, e: Edge, c: Node)
    requires EdgesOk(v) && n in v.nodes && c in v.nodes && c in v.ext && v.ext[c] > 0 && n != c && e !in v.edges
    requires v.nodes[n].backing.Some? ==> v.nodes[n].backing.value !in v.edges
    ensures EdgesOk(AttachBacking(v, n, e, c))
  {
    hide BackingBlockers;
    var v' := AttachBacking(v, n, e, c);
    assert v'.nodes.Keys == v.nodes.Keys;
    forall d | d in v'.edges ensures EdgeOk(v', d) {
      assert d != e ==> EdgeOk(v, d);
    }
  }

  lemma AttachSettled(v: View, n: Node, e: Edge, c: Node)
    requires Settled(v, {n}) && n in v.nodes && c in v.nodes && c in v.ext && v.ext[c] > 0 && n != c && e !in v.edges
    requires v.nodes[n].refcnt > 0 && PointsTo(v.edges, v.nodes[n].file, File, n)
    ensures Settled(AttachBacking(v, n, e, c), {n})
    ensures v.nodes[n].drv ==> Settled(AttachBacking(v, n, e, c), {})
  {
    hide BackingBlockers;
    var v' := AttachBacking(v, n, e, c);
    assert v'.nodes.Keys == v.nodes.Keys;
    forall m | m in v'.nodes && (m != n || v.nodes[n].drv) ensures FieldsOk(v', m) && v'.nodes[m].refcnt > 0 {
      assert m != n ==> FieldsOk(v, m);
    }
  }

  lemma AttachCounted(v: View, n: Node, e: Edge, c: Node)
    requires Counted(v) && n in v.nodes && c in v.nodes && c in v.ext && v.ext[c] > 0 && n != c && e !in v.edges
    ensures Counted(AttachBacking(v, n, e, c))
  {
    var v' := AttachBacking(v, n, e, c);
    forall m | m in v'.nodes ensures v'.nodes[m].refcnt == |InEdges(v'.edges, m)| + v'.ext[m] {
      InEdgesAdd(v.edges, e, Child(c, Backing, Some(n)), m);
    }
  }

  lemma AttachBlocked(v: View, n: Node, e: Edge, c: Node)
    requires Blocked(v) && n in v.nodes && c in v.nodes && c in v.ext && v.ext[c] > 0 && n != c && e !in v.edges
    ensures Blocked(AttachBacking(v, n, e, c))
  {
    var v' := AttachBacking(v, n, e, c);
    forall k: Node, op: BlockOp, m: Node | k in v'.nodes
      ensures (op, m) in v'.nodes[k].blockers <==> op != CommitTarget && IsBackingEdge(v'.edges, m, k)
    {
      assert (op, m) in v.nodes[k].blockers <==> op != CommitTarget && IsBackingEdge(v.edges, m, k);
      BackingEdgeAdded(v.edges, e, n, c, m, k);
    }
  }

  lemma BackingEdgeAdded(edges: map<Edge, Child>, e: Edge, n: Node, c: Node, m: Node, k: Node)
    requires e !in edges
    ensures IsBackingEdge(edges[e := Child(c, Backing, Some(n))], m, k) <==>
              IsBackingEdge(edges, m, k) || (m == n && k == c)
  {
    var edges' := edges[e := Child(c, Backing, Some(n))];
    if m == n && k == c {
      assert e in edges' && edges'[e] == Child(k, Backing, Some(m));
    }
    if IsBackingEdge(edges, m, k) {
      var d :| d in edges && edges[d] == Child(k, Backing, Some(m));
      assert d in edges' && edges'[d] == Child(k, Backing, Some(m));
    }
  }

  // bdrv_set_backing_hd

  /** Node `n` has given up its backing child; its pointer is stale. */
  ghost predicate Loosened(v: View, v': View, n: Node) {
    && n in v.nodes && n in v'.nodes && v'.nodes[n] == v.nodes[n] && Cascaded(v, v', {n}) && Released(v, v', None)
    && (v.nodes[n].backing.Some? ==> v.nodes[n].backing.value !in v'.edges)
    && (forall d :: d in v.edges && v.edges[d].parent == Some(n) && Some(d) != v.nodes[n].backing ==>
          d in v'.edges && v'.edges[d] == v.edges[d])
  }

  lemma NothingToLoosen(v: View, n: Node)
    requires Inv(v, {n}) && n in v.nodes && v.nodes[n].backing == None
    ensures Loosened(v, v, n)
  {
    forall e | e in v.edges ensures v.edges[e].parent.Some? ==> v.edges[e].parent.value in v.nodes {
      assert EdgeOk(v, e);
    }
  }

  /** Edge `e` is still there. */
  ghost predicate Kept(v: View, v': View, e: Edge)
    requires e in v.edges
  {
    e in v'.edges && v'.edges[e] == v.edges[e]
  }

  ghost predicate ParentLives(v: View, v': View, e: Edge)
    requires e in v.edges
  {
    v.edges[e].parent.Some? ==> v.edges[e].parent.value in v'.nodes
  }

  ghost predicate SameFields(v: View, v': View, n: Node) {
    forall m :: m in v'.nodes && m in v.nodes ==>
      v'.nodes[m].file == v.nodes[m].file && v'.nodes[m].drv == v.nodes[m].drv
        && (m != n ==> v'.nodes[m].backing == v.nodes[m].backing)
  }

  ghost predicate SameHolders(v: View, v': View) {
    && v'.nodes.Keys <= v.nodes.Keys && v.ext.Keys == v.nodes.Keys && v'.ext.Keys == v'.nodes.Keys
    && forall m :: m in v.nodes ==> v.ext[m] == if m in v'.nodes then v'.ext[m] else 0
  }

  /** Apart from `n`'s backing edge, there are no edges but those there were. */
  ghost predicate NoOtherEdges(v: View, v': View, n: Node) {
    forall e :: e in v'.edges ==> (n in v'.nodes && Some(e) == v'.nodes[n].backing) || (e in v.edges && Kept(v, v', e))
  }

  /** Apart from `n`'s backing edge, an edge is there as long as its parent is. */
  ghost predicate EdgesFollow(v: View, v': View, n: Node) {
    forall e :: e in v.edges ==>
      (n in v.nodes && Some(e) == v.nodes[n].backing) || (Kept(v, v', e) <==> ParentLives(v, v', e))
  }

  /** The backing child of `n` is `target` now, and that is all that changed for the nodes that are left. */
  ghost predicate Relinked(v: View, v': View, n: Node, target: Option<Node>) {
    && n in v.nodes && n in v'.nodes && v'.nodes[n].refcnt == v.nodes[n].refcnt && BackingOf(v', n) == target
    && SameHolders(v, v') && SameFields(v, v', n) && NoOtherEdges(v, v', n) && EdgesFollow(v, v', n)
  }

  /** backing_bs */
  function BackingBs(nodes: map<Node, Bds>, edges: map<Edge, Child>, n: Node): Option<Node> {
    if n in nodes && nodes[n].backing.Some? && nodes[n].backing.value in edges
    then Some(edges[nodes[n].backing.value].bs)
    else None
  }

  ghost function BackingOf(v: View, n: Node): Option<Node> {
    BackingBs(v.nodes, v.edges, n)
  }

  /** What giving up the backing child leaves. */
  lemma LoosenedFrame(v: View, v': View, n: Node)
    requires Loosened(v, v', n)
    ensures SameHolders(v, v') && SameFields(v, v', n) && NoOtherEdges(v, v', n) && EdgesFollow(v, v', n)
  {
    LoosenedFields(v, v', n);
    LoosenedEdges(v, v', n);
    hide Cascaded, Released, SameHolders, SameFields, NoOtherEdges, EdgesFollow;
  }

  lemma LoosenedFields(v: View, v': View, n: Node)
    requires Loosened(v, v', n)
    ensures SameHolders(v, v') && SameFields(v, v', n)
  {
  }

  lemma LoosenedEdges(v: View, v': View, n: Node)
    requires Loosened(v, v', n)
    ensures NoOtherEdges(v, v', n) && EdgesFollow(v, v', n)
  {
    hide Released;
  }

  lemma RelinkNone(v: View, v1: View, n: Node)
    requires Inv(v, {}) && Loosened(v, v1, n) && Inv(v1, {n}) && n in v1.nodes
    ensures var v' := v1.(nodes := v1.nodes[n := v1.nodes[n].(backing := None)]);
            Inv(v', {}) && Relinked(v, v', n, None)
  {
    LoosenedFrame(v, v1, n);
    RelinkNoneInv(v, v1, n);
    RelinkNoneFrame(v, v1, n);
    hide Inv, Loosened, Relinked;
  }

  lemma RelinkNoneInv(v: View, v1: View, n: Node)
    requires Inv(v, {}) && Loosened(v, v1, n) && Inv(v1, {n}) && n in v1.nodes
    ensures Inv(v1.(nodes := v1.nodes[n := v1.nodes[n].(backing := None)]), {})
  {
    hide Cascaded, Released, Counted, Blocked;
    var v' := v1.(nodes := v1.nodes[n := v1.nodes[n].(backing := None)]);
    assert FieldsOk(v, n);
    forall e | e in v1.edges && v1.edges[e].role == Backing ensures v1.edges[e].parent != Some(n) {
      assert EdgeOk(v1, e);
    }
    FieldCleared(v1, {n}, n, v'.nodes[n]);
    assert FieldsOk(v', n);
    assert {} + {n} == {n};
    SettledAgain(v', {}, n);
  }

  lemma RelinkNoneFrame(v: View, v1: View, n: Node)
    requires n in v.nodes && n in v1.nodes && v1.nodes[n] == v.nodes[n]
    requires (v.nodes[n].backing.Some? ==> v.nodes[n].backing.value !in v1.edges)
    requires SameHolders(v, v1) && SameFields(v, v1, n) && NoOtherEdges(v, v1, n) && EdgesFollow(v, v1, n)
    ensures Relinked(v, v1.(nodes := v1.nodes[n := v1.nodes[n].(backing := None)]), n, None)
  {
  }

  lemma RelinkSome(v: View, v1: View, n: Node, e: Edge, c: Node)
    requires Inv(v, {}) && c in v.nodes && c in v.ext && n != c && Loosened(AddRef(v, c), v1, n) && Inv(v1, {n})
    requires n in v.nodes && e !in v1.edges
    ensures c in v1.nodes && c in v1.ext && v1.ext[c] > 0 && n in v1.nodes
    ensures var v' := AttachBacking(v1, n, e, c);
            Inv(v', {n}) && (v.nodes[n].drv ==> Inv(v', {})) && Relinked(v, v', n, Some(c))
  {
    hide Cascaded, Released, AttachBacking, SameFields, NoOtherEdges, EdgesFollow, Blocked, AddRef, Relinked,
         SameHolders;
    var v0 := AddRef(v, c);
    AddRefInv(v, {}, c);
    AddRefShape(v, n, c);
    assert FieldsOk(v0, n);
    LoosenedFrame(v0, v1, n);
    RelinkedSome(v, v0, v1, n, e, c);
    AttachBackingInv(v1, n, e, c);
  }

  lemma RelinkedSome(v: View, v0: View, v1: View, n: Node, e: Edge, c: Node)
    requires c in v.nodes && c in v.ext && n in v.nodes && n != c && v0 == AddRef(v, c) && e !in v1.edges
    requires n in v1.nodes && v1.nodes[n] == v0.nodes[n]
    requires (v.nodes[n].backing.Some? ==> v.nodes[n].backing.value !in v1.edges)
    requires SameHolders(v0, v1) && SameFields(v0, v1, n) && NoOtherEdges(v0, v1, n) && EdgesFollow(v0, v1, n)
    requires EdgesOk(v) && v.ext.Keys == v.nodes.Keys
    ensures c in v1.nodes && c in v1.ext && v1.ext[c] > 0
    ensures Relinked(v, AttachBacking(v1, n, e, c), n, Some(c))
  {
    hide SameFields, NoOtherEdges, EdgesFollow, SameHolders, SameShape, AttachBacking, AddRef;
    AddRefShape(v, n, c);
    assert c in v1.nodes && c in v1.ext && v1.ext[c] > 0 by { HoldersAfter(v, v0, v1, v1, c); }
    var v' := AttachBacking(v1, n, e, c);
    AttachShape(v1, n, e, c);
    HoldersAfter(v, v0, v1, v', c);
    FieldsAfter(v, v0, v1, v', n);
    EdgesAfter(v, v0, v1, v', n, e, c);
  }

  lemma AddRefShape(v: View, n: Node, c: Node)
    requires c in v.nodes && c in v.ext && n != c && n in v.nodes
    ensures SameShape(v, AddRef(v, c), n) && AddRef(v, c).edges == v.edges
    ensures n in AddRef(v, c).nodes && AddRef(v, c).nodes[n] == v.nodes[n]
  {
  }

  lemma AttachShape(v: View, n: Node, e: Edge, c: Node)
    requires n in v.nodes && c in v.nodes && c in v.ext && v.ext[c] > 0 && n != c
    ensures var v' := AttachBacking(v, n, e, c);
            && v'.nodes.Keys == v.nodes.Keys && v'.ext.Keys == v.ext.Keys && SameShape(v, v', n)
            && v'.edges == v.edges[e := Child(c, Backing, Some(n))] && v'.ext == v.ext[c := v.ext[c] - 1]
            && v'.nodes[n] == v.nodes[n].(backing := Some(e))
  {
    hide BackingBlockers;
  }

  ghost predicate SameShape(v: View, v': View, n: Node) {
    && v'.nodes.Keys == v.nodes.Keys
    && forall m :: m in v.nodes ==>
         v'.nodes[m].file == v.nodes[m].file && v'.nodes[m].drv == v.nodes[m].drv
           && (m != n ==> v'.nodes[m].backing == v.nodes[m].backing)
  }

  lemma HoldersAfter(v: View, v0: View, v1: View, v': View, c: Node)
    requires c in v.nodes && c in v.ext && v0 == AddRef(v, c) && SameHolders(v0, v1) && v.ext.Keys == v.nodes.Keys
    ensures c in v1.nodes && c in v1.ext && v1.ext[c] > 0
    ensures v'.nodes.Keys == v1.nodes.Keys && v'.ext == v1.ext[c := v1.ext[c] - 1] ==> SameHolders(v, v')
  {
    assert v0.nodes.Keys == v.nodes.Keys;
  }

  lemma FieldsAfter(v: View, v0: View, v1: View, v': View, n: Node)
    requires SameShape(v, v0, n) && SameFields(v0, v1, n) && SameShape(v1, v', n)
    ensures SameFields(v, v', n)
  {
  }

  lemma EdgesAfter(v: View, v0: View, v1: View, v': View, n: Node, e: Edge, c: Node)
    requires n in v.nodes && n in v0.nodes && n in v1.nodes && n in v'.nodes && EdgesOk(v)
    requires v0.edges == v.edges && v0.nodes[n].backing == v.nodes[n].backing == v1.nodes[n].backing
    requires v'.nodes[n].backing == Some(e)
    requires v1.nodes.Keys == v'.nodes.Keys && v'.edges == v1.edges[e := Child(c, Backing, Some(n))]
    requires NoOtherEdges(v0, v1, n) && EdgesFollow(v0, v1, n) && e !in v1.edges
    requires v.nodes[n].backing.Some? ==> v.nodes[n].backing.value !in v1.edges
    ensures NoOtherEdges(v, v', n) && EdgesFollow(v, v', n)
  {
    forall d | d in v.edges && Some(d) != v.nodes[n].backing ensures Kept(v, v', d) <==> ParentLives(v, v', d) {
      assert EdgeOk(v, d);
      assert Kept(v0, v1, d) <==> ParentLives(v0, v1, d);
    }
    forall d | d in v'.edges && d != e ensures d in v.edges && Kept(v, v', d) {
      assert Kept(v0, v1, d);
    }
  }

  lemma Referenced(v: View, busy: set<Node>)
    requires Inv(v, busy)
    ensures v.ext.Keys == v.nodes.Keys
  {
  }

  lemma RankedDifferent(v: View, rank: map<Node, nat>, n: Node, c: Node)
    requires RankedAll(v, rank) && n in v.nodes && c in v.nodes && rank[c] < rank[n]
    ensures n != c && n in rank && c in rank
  {
  }

  lemma AddRefRanked(v: View, c: Node, rank: map<Node, nat>)
    requires RankedAll(v, rank) && c in v.nodes && c in v.ext
    ensures RankedAll(AddRef(v, c), rank)
  {
  }

  lemma {:induction false} FreshEdge(edges: map<Edge, Child>)
    ensures exists e: Edge :: e !in edges
  {
    var k := EdgeBound(edges.Keys);
    assert k !in edges;
  }

  lemma {:induction false} EdgeBound(es: set<Edge>) returns (k: nat)
    ensures forall e :: e in es ==> e < k
  {
    if es == {} {
      k := 0;
    } else {
      var e :| e in es;
      var k' := EdgeBound(es - {e});
      k := if e < k' then k' else e + 1;
      assert es == es - {e} + {e};
    }
  }

  lemma AttachIs(v: View, v': View, n: Node, e: Edge, c: Node)
    requires n in v.nodes && c in v.nodes && c in v.ext && v.ext[c] > 0 && n != c
    requires var nodes := v.nodes[n := v.nodes[n].(backing := Some(e))];
             && v'.nodes == nodes[c := nodes[c].(blockers := nodes[c].blockers + BackingBlockers(n))]
             && v'.edges == v.edges[e := Child(c, Backing, Some(n))] && v'.ext == v.ext[c := v.ext[c] - 1]
    ensures v' == AttachBacking(v, n, e, c)
  {
  }

  lemma LoosenReady(v: View, n: Node, rank: map<Node, nat>)
    requires Inv(v, {}) && RankedAll(v, rank) && n in v.nodes
    ensures Inv(v, {n}) && Inv(v, {} + {n}) && BelowBusy(v.nodes, {}, rank, n)
    ensures v.nodes[n].backing.Some? ==>
              v.nodes[n].backing.value in v.edges && v.edges[v.nodes[n].backing.value].parent == Some(n)
    ensures OnlyBelow(v, v, rank, n)
  {
    assert FieldsOk(v, n);
    assert {} + {n} == {n};
    InvMore(v, n);
  }

  lemma RelinkNoneRank(v: View, v1: View, n: Node, rank: map<Node, nat>)
    requires OnlyBelow(v, v1, rank, n) && RankedAll(v1, rank) && n in v1.nodes
    ensures var v' := v1.(nodes := v1.nodes[n := v1.nodes[n].(backing := None)]);
            OnlyBelow(v, v', rank, n) && RankedAll(v', rank)
  {
  }

  lemma RelinkSomeRank(v: View, v1: View, n: Node, e: Edge, c: Node, rank: map<Node, nat>)
    requires c in v.nodes && c in v.ext && OnlyBelow(AddRef(v, c), v1, rank, n) && RankedAll(v1, rank) && e !in v1.edges
    requires n in v1.nodes && c in v1.nodes && c in v1.ext && v1.ext[c] > 0 && n != c && rank[c] < rank[n]
    ensures var v' := AttachBacking(v1, n, e, c); OnlyBelow(v, v', rank, n) && RankedAll(v', rank)
  {
    hide BackingBlockers;
    AttachShape(v1, n, e, c);
  }

  /** A node that has a backing child and no driver is not in order: bdrv_close would leave the child. */
  lemma SettledOnlyWithDriver(v: View, v': View, n: Node, target: Option<Node>)
    requires Relinked(v, v', n, target) && target.Some? && !v.nodes[n].drv
    ensures !Inv(v', {})
  {
    hide NoOtherEdges, EdgesFollow, SameHolders;
    assert !FieldsOk(v', n);
  }

  lemma InvMore(v: View, n: Node)
    requires Inv(v, {})
    ensures Inv(v, {n})
  {
    assert {} + {n} == {n};
    SettledMore(v, {}, n);
  }

  // Backing chains

  ghost predicate BackingPath(v: View, s: seq<Node>) {
    |s| > 0 && forall i :: 0 <= i < |s| - 1 ==> LinkAt(v, s, i)
  }

  ghost predicate LinkAt(v: View, s: seq<Node>, i: nat)
    requires i + 1 < |s|
  {
    BackingOf(v, s[i]) == Some(s[i + 1])
  }

  ghost predicate OnChain(v: View, a: Node, b: Node) {
    exists s :: BackingPath(v, s) && s[0] == a && s[|s| - 1] == b
  }

  /** A chain goes on in one way only. */
  lemma {:induction false} PathsAgree(v: View, s: seq<Node>, t: seq<Node>, i: nat)
    requires BackingPath(v, s) && BackingPath(v, t) && s[0] == t[0] && i < |s| && i < |t|
    ensures s[i] == t[i]
  {
    if i > 0 {
      PathsAgree(v, s, t, i - 1);
      assert LinkAt(v, s, i - 1) && LinkAt(v, t, i - 1);
    }
  }

  lemma BackingBelow(v: View, rank: map<Node, nat>, n: Node)
    requires Inv(v, {}) && RankedAll(v, rank) && n in v.nodes && BackingOf(v, n).Some?
    ensures BackingOf(v, n).value in v.nodes && rank[BackingOf(v, n).value] < rank[n] && v.nodes[n].drv
    ensures var e := v.nodes[n].backing.value; v.edges[e] == Child(BackingOf(v, n).value, Backing, Some(n))
  {
    assert FieldsOk(v, n);
    assert EdgeOk(v, v.nodes[n].backing.value);
  }

  lemma {:induction false} PathBelow(v: View, rank: map<Node, nat>, s: seq<Node>, i: nat)
    requires Inv(v, {}) && RankedAll(v, rank) && BackingPath(v, s) && s[0] in v.nodes && i < |s|
    ensures s[i] in v.nodes && rank[s[i]] <= rank[s[0]] && (i > 0 ==> rank[s[i]] < rank[s[0]])
  {
    if i > 0 {
      PathBelow(v, rank, s, i - 1);
      assert LinkAt(v, s, i - 1);
      BackingBelow(v, rank, s[i - 1]);
    }
  }

  lemma ChainStep(v: View, s: seq<Node>, n: Node)
    requires BackingPath(v, s) && BackingOf(v, s[|s| - 1]) == Some(n)
    ensures BackingPath(v, s + [n])
  {
    forall i | 0 <= i < |s| ensures LinkAt(v, s + [n], i) {
      assert i < |s| - 1 ==> LinkAt(v, s, i);
    }
  }

  /** The chain `s` goes no further. */
  lemma ChainEnd(v: View, s: seq<Node>, o: Node)
    requires BackingPath(v, s) && BackingOf(v, s[|s| - 1]) == None && OnChain(v, s[0], o)
    ensures exists i :: 0 <= i < |s| && s[i] == o
  {
    var t :| BackingPath(v, t) && t[0] == s[0] && t[|t| - 1] == o;
    if |t| > |s| {
      GoesOn(v, s, t);
    }
    PathsAgree(v, s, t, |t| - 1);
  }

  lemma GoesOn(v: View, s: seq<Node>, t: seq<Node>)
    requires BackingPath(v, s) && BackingPath(v, t) && s[0] == t[0] && |s| < |t|
    ensures BackingOf(v, s[|s| - 1]) == Some(t[|s|])
  {
    PathsAgree(v, s, t, |s| - 1);
    assert LinkAt(v, t, |s| - 1);
  }

  /** Links of other nodes than the relinked one stay. */
  lemma LinkKept(v: View, v': View, o: Node, target: Option<Node>, m: Node)
    requires Inv(v, {}) && Inv(v', {}) && Relinked(v, v', o, target) && m in v'.nodes && m != o
    ensures BackingOf(v', m) == BackingOf(v, m)
    ensures BackingOf(v, m).Some? ==> BackingOf(v, m).value in v'.nodes
  {
    hide Counted, Blocked, SameHolders, NoOtherEdges;
    LinkFields(v, v', o, target, m);
    var backing := v.nodes[m].backing;
    if backing.Some? {
      assert FieldsOk(v, m);
      assert Kept(v, v', backing.value) by {
        assert FieldsOk(v, o);
        assert ParentLives(v, v', backing.value);
      }
      assert EdgeOk(v', backing.value);
    }
  }

  lemma LinkFields(v: View, v': View, o: Node, target: Option<Node>, m: Node)
    requires Relinked(v, v', o, target) && m in v'.nodes && m != o
    ensures m in v.nodes && v'.nodes[m].backing == v.nodes[m].backing
  {
  }

  /** A chain that avoids the relinked node stays. */
  lemma {:induction false} ChainKept(v: View, v': View, o: Node, target: Option<Node>, t: seq<Node>, i: nat)
    requires Inv(v, {}) && Inv(v', {}) && Relinked(v, v', o, target) && BackingPath(v, t) && t[0] in v'.nodes && i < |t|
    requires forall k :: 0 <= k < i ==> t[k] != o
    ensures t[i] in v'.nodes && BackingPath(v', t[..i + 1])
  {
    hide Inv, Relinked, BackingOf;
    if i > 0 {
      ChainKept(v, v', o, target, t, i - 1);
      LinkKept(v, v', o, target, t[i - 1]);
      assert LinkAt(v, t, i - 1);
      ChainStep(v', t[..i], t[i]);
      assert t[..i] + [t[i]] == t[..i + 1];
    } else {
      assert t[..1] == [t[0]];
    }
  }

  /** The chain above the relinked node is followed by the chain of its new backing node. */
  lemma Spliced(v: View, v': View, rank: map<Node, nat>, o: Node, base: Node, s: seq<Node>, t: seq<Node>)
    requires Inv(v, {}) && Inv(v', {}) && RankedAll(v, rank) && Relinked(v, v', o, Some(base))
    requires OnlyBelow(v, v', rank, o)
    requires BackingPath(v, s) && s[0] in v.nodes && s[|s| - 1] == o
    requires BackingPath(v, t) && t[0] == base && base in v.nodes && rank[base] < rank[o]
    ensures BackingPath(v', s + t)
  {
    hide Inv, Relinked, BackingOf, Ranked;
    forall k | 0 <= k < |s| - 1 ensures s[k] != o {
      PathTail(v, s, k);
      PathBelow(v, rank, s, k);
      PathBelow(v, rank, s[k..], |s| - 1 - k);
    }
    forall k | 0 <= k < |t| ensures t[k] != o {
      PathBelow(v, rank, t, k);
    }
    PathBelow(v, rank, s, |s| - 1);
    assert s[0] in v'.nodes by { StillThere(v, v', rank, o, base, s[0]); }
    ChainKept(v, v', o, Some(base), s, |s| - 1);
    assert s[..|s|] == s;
    assert BackingOf(v', o) == Some(base) && base in v'.nodes by { RelinkedTarget(v, v', o, base); }
    ChainKept(v, v', o, Some(base), t, |t| - 1);
    assert t[..|t|] == t;
    ChainsJoined(v', s, t);
  }

  lemma StillThere(v: View, v': View, rank: map<Node, nat>, o: Node, base: Node, m: Node)
    requires Relinked(v, v', o, Some(base)) && OnlyBelow(v, v', rank, o) && m in v.nodes && m in rank && o in rank
    requires m == o || rank[o] < rank[m]
    ensures m in v'.nodes
  {
  }

  lemma RelinkedTarget(v: View, v': View, o: Node, base: Node)
    requires Inv(v', {}) && Relinked(v, v', o, Some(base))
    ensures BackingOf(v', o) == Some(base) && base in v'.nodes
  {
    assert EdgeOk(v', v'.nodes[o].backing.value);
  }

  lemma ChainsJoined(v: View, s: seq<Node>, t: seq<Node>)
    requires BackingPath(v, s) && BackingPath(v, t) && BackingOf(v, s[|s| - 1]) == Some(t[0])
    ensures BackingPath(v, s + t)
  {
    var u := s + t;
    forall i | 0 <= i < |u| - 1 ensures LinkAt(v, u, i) {
      if i < |s| - 1 {
        assert LinkAt(v, s, i);
      } else if i >= |s| {
        assert LinkAt(v, t, i - |s|);
      }
    }
  }

  lemma PathTail(v: View, s: seq<Node>, k: nat)
    requires BackingPath(v, s) && k < |s|
    ensures BackingPath(v, s[k..])
  {
    forall i | 0 <= i < |s| - k - 1 ensures LinkAt(v, s[k..], i) {
      assert LinkAt(v, s, k + i);
    }
  }

  /** A node at which no chain node below `a` has backing child `target` so far. */
  ghost predicate NotYet(v: View, s: seq<Node>, target: Option<Node>) {
    BackingPath(v, s) && forall i :: 0 <= i < |s| - 1 ==> BackingOf(v, s[i]) != target
  }

  lemma NotYetStep(v: View, s: seq<Node>, target: Option<Node>, n: Node)
    requires NotYet(v, s, target) && BackingOf(v, s[|s| - 1]) == Some(n) && Some(n) != target
    ensures NotYet(v, s + [n], target)
  {
    ChainStep(v, s, n);
    forall i | 0 <= i < |s| ensures BackingOf(v, (s + [n])[i]) != target {
      assert (s + [n])[i] == s[i];
    }
  }

  lemma NoOverlay(v: View, s: seq<Node>, target: Option<Node>, o: Node)
    requires NotYet(v, s, target) && BackingOf(v, s[|s| - 1]) == None && target != None && OnChain(v, s[0], o)
    ensures BackingOf(v, o) != target
  {
    ChainEnd(v, s, o);
  }

  /** What bdrv_drop_intermediate asks of the chain. */
  ghost predicate Droppable(v: View, active: Node, top: Node, base: Node) {
    && top in v.nodes && base in v.nodes && v.nodes[top].drv && v.nodes[base].drv
    && (exists o :: OnChain(v, active, o) && BackingOf(v, o) == Some(top))
    && OnChain(v, top, base)
  }

  lemma OnChainSelf(v: View, n: Node)
    ensures OnChain(v, n, n)
  {
    assert BackingPath(v, [n]);
  }

  lemma OnChainBelow(v: View, rank: map<Node, nat>, a: Node, b: Node)
    requires Inv(v, {}) && RankedAll(v, rank) && a in v.nodes && OnChain(v, a, b)
    ensures b in v.nodes && rank[b] <= rank[a]
  {
    var s :| BackingPath(v, s) && s[0] == a && s[|s| - 1] == b;
    PathBelow(v, rank, s, |s| - 1);
  }

  /** A node has one overlay in a chain. */
  lemma OverlayUnique(v: View, rank: map<Node, nat>, a: Node, o: Node, o': Node)
    requires Inv(v, {}) && RankedAll(v, rank) && a in v.nodes && OnChain(v, a, o) && OnChain(v, a, o')
    requires BackingOf(v, o).Some? && BackingOf(v, o) == BackingOf(v, o')
    ensures o == o'
  {
    var s :| BackingPath(v, s) && s[0] == a && s[|s| - 1] == o;
    var s' :| BackingPath(v, s') && s'[0] == a && s'[|s'| - 1] == o';
    OverlayOnce(v, rank, s, s');
    OverlayOnce(v, rank, s', s);
    PathsAgree(v, s, s', |s| - 1);
  }

  lemma OverlayOnce(v: View, rank: map<Node, nat>, s: seq<Node>, t: seq<Node>)
    requires Inv(v, {}) && RankedAll(v, rank) && BackingPath(v, s) && BackingPath(v, t) && s[0] == t[0]
    requires s[0] in v.nodes
    requires BackingOf(v, t[|t| - 1]).Some? && BackingOf(v, s[|s| - 1]) == BackingOf(v, t[|t| - 1])
    ensures |t| <= |s|
  {
    hide Inv, Ranked, BackingOf;
    if |t| > |s| {
      GoesOn(v, s, t);
      PathBelow(v, rank, t, |s|);
      PathTail(v, t, |s|);
      PathBelow(v, rank, t[|s|..], |t| - 1 - |s|);
      BackingBelow(v, rank, t[|t| - 1]);
    }
  }

  lemma NoOverlayOfSelf(v: View, rank: map<Node, nat>, a: Node, o: Node)
    requires Inv(v, {}) && RankedAll(v, rank) && a in v.nodes && OnChain(v, a, o)
    ensures BackingOf(v, o) != Some(a)
  {
    OnChainBelow(v, rank, a, o);
    if BackingOf(v, o) == Some(a) {
      BackingBelow(v, rank, o);
    }
  }

  // What a change deletes

  /** But for the edge `skip`, edges stay as long as their parents do. */
  ghost predicate EdgesStay(v: View, v': View, skip: Option<Edge>) {
    forall e :: e in v.edges && Some(e) != skip && ParentLives(v, v', e) ==> Kept(v, v', e)
  }

  /** What is on a path from a survivor survives, unless the path goes over the edge `skip`. */
  lemma {:induction false} PathSurvives(v: View, v': View, skip: Option<Edge>, p: seq<Edge>, a: Node, b: Node)
    requires EdgesOk(v') && EdgesStay(v, v', skip) && Path(v.edges, p, a, b) && a in v'.nodes
    ensures b in v'.nodes || (skip.Some? && skip.value in v.edges && Reaches(v.edges, v.edges[skip.value].bs, b))
  {
    if p != [] {
      var e := p[0];
      if Some(e) == skip {
        assert Path(v.edges, p[1..], v.edges[e].bs, b);
      } else {
        assert ParentLives(v, v', e) && Kept(v, v', e);
        assert EdgeOk(v', e);
        PathSurvives(v, v', skip, p[1..], v.edges[e].bs, b);
      }
    }
  }

  /** Whoever holds a node: all survive but perhaps `n`. */
  ghost predicate HoldersStay(v: View, v': View, n: Option<Node>) {
    forall a :: a in v.nodes && Held(v, a) && Some(a) != n ==> a in v'.nodes
  }

  /** Only what the lost holder or the lost edge reached can be gone. */
  lemma DeletedBelow(v: View, v': View, n: Option<Node>, skip: Option<Edge>, m: Node)
    requires Inv(v, {}) && Acyclic(v) && EdgesOk(v') && EdgesStay(v, v', skip) && HoldersStay(v, v', n)
    requires m in v.nodes && m !in v'.nodes
    ensures || (n.Some? && Reaches(v.edges, n.value, m))
            || (skip.Some? && skip.value in v.edges && Reaches(v.edges, v.edges[skip.value].bs, m))
  {
    hide Inv, EdgesStay, EdgesOk;
    var rank: map<Node, nat> :| RankedAll(v, rank);
    var bound := RankBound(rank, rank.Keys);
    var a := Live(v, rank, m, bound);
    if Some(a) != n {
      var p :| Path(v.edges, p, a, m);
      PathSurvives(v, v', skip, p, a, m);
    }
  }

  /** bdrv_unref deletes only what the node reaches. */
  lemma UnrefDeletes(v: View, v': View, n: Node, m: Node)
    requires Inv(v, {}) && Acyclic(v) && Inv(v', {}) && Cascaded(v, v', {}) && Released(v, v', Some(n))
    requires m in v.nodes && m !in v'.nodes
    ensures Reaches(v.edges, n, m)
  {
    assert EdgesStay(v, v', None);
    forall a | a in v.nodes && Held(v, a) && a != n ensures a in v'.nodes {
      if !(a in v.ext && v.ext[a] > 0) {
        var e :| e in v.edges && v.edges[e].bs == a && v.edges[e].role == Root;
        assert EdgeOk(v, e);
        assert e in v'.edges && EdgeOk(v', e);
      }
    }
    hide Inv, Cascaded, Released, EdgesStay;
    DeletedBelow(v, v', Some(n), None, m);
  }

  /** Relinking deletes only what the former backing child reaches. */
  lemma RelinkDeletes(v: View, v': View, o: Node, target: Option<Node>, m: Node)
    requires Inv(v, {}) && Acyclic(v) && Inv(v', {}) && Relinked(v, v', o, target) && m in v.nodes && m !in v'.nodes
    ensures BackingOf(v, o).Some? && Reaches(v.edges, BackingOf(v, o).value, m)
  {
    assert EdgesStay(v, v', v.nodes[o].backing);
    forall a | a in v.nodes && Held(v, a) ensures a in v'.nodes {
      if !(a in v.ext && v.ext[a] > 0) {
        var e :| e in v.edges && v.edges[e].bs == a && v.edges[e].role == Root;
        assert EdgeOk(v, e) && FieldsOk(v, o);
        assert ParentLives(v, v', e) && Kept(v, v', e) && EdgeOk(v', e);
      }
    }
    hide Inv, Relinked, EdgesStay;
    DeletedBelow(v, v', None, v.nodes[o].backing, m);
  }
}
