/** How the flat table changes when pages or bytes are given a new section:
    the steps of register_multipage and register_subpage (qemu/exec.c). */
module DispatchUpdates {
  import opened Arithmetic
  import opened RadixTree
  import opened Dispatch

  /** A table of which every byte is unassigned. */
  function BlankTable(g: Geometry, base: nat): SubpageTable {
    SubpageTable(base, seq(g.pageSize, i => UNASSIGNED))
  }

  /** The tables after a section was given whole pages; a subpage section brings an empty table. */
  function WithTable(g: Geometry, subs: seq<SubpageTable>, sec: Section): seq<SubpageTable> {
    if sec.mr.Subpage? then subs + [BlankTable(g, sec.base)] else subs
  }

  /** `sec` may be given the pages [first, first + n). */
  ghost predicate PagesFree(g: Geometry, flat: seq<nat>, subs: seq<SubpageTable>, sec: Section, first: nat, n: nat) {
    && WholePages(g, sec, first, n) && first + n <= |flat|
    && (forall p :: first <= p < first + n ==> flat[p] == UNASSIGNED)
    && (sec.mr.Subpage? ==> n == 1 && sec.mr.id == |subs|)
  }

  /** A page's section is resolved as before once more sections and tables exist. */
  lemma SubsectionKept(g: Geometry, flat: seq<nat>, sections: seq<Section>, subs: seq<SubpageTable>, sec: Section,
                       subs': seq<SubpageTable>, s: nat, addr: nat)
    requires 0 < g.pageSize && s < |sections| && |subs| <= |subs'|
    requires s < 4 ==> !sections[s].mr.Subpage?
    requires SubpageOk(g, flat, sections, subs, s)
    requires sections[s].mr.Subpage? ==> subs'[sections[s].mr.id] == subs[sections[s].mr.id]
    ensures Subsection(g, s, sections + [sec], subs', addr) == Subsection(g, s, sections, subs, addr)
  {
  }

  lemma AddedResolve(g: Geometry, flat: seq<nat>, sections: seq<Section>, subs: seq<SubpageTable>,
                     sec: Section, first: nat, n: nat, addr: nat)
    requires TableOk(g, flat, sections, subs) && PagesFree(g, flat, subs, sec, first, n) && addr < g.space
    ensures var s := |sections|;
            Resolve(g, SetRange(flat, first, n, s), sections + [sec], WithTable(g, subs, sec), addr)
            == if Covers(g, sec, addr) then (if sec.mr.Subpage? then UNASSIGNED else s)
               else Resolve(g, flat, sections, subs, addr)
    ensures Covers(g, sec, addr) ==> Resolve(g, flat, sections, subs, addr) == UNASSIGNED
  {
    hide Page, PageOffset;
    var q := Page(g, addr);
    PageOf(g, q, addr);
    CoversPages(g, sec, first, n, q, addr);
    if q < |flat| && !(first <= q < first + n) {
      assert PageOk(g, flat, sections, subs, q);
      if flat[q] == UNASSIGNED {
        assert !sections[0].mr.Subpage? by { assert sections[..4][0] == sections[0]; }
      } else {
        assert SubpageOk(g, flat, sections, subs, flat[q]);
        SubsectionKept(g, flat, sections, subs, sec, WithTable(g, subs, sec), flat[q], addr);
      }
    }
  }

  lemma AddedPageOk(g: Geometry, flat: seq<nat>, sections: seq<Section>, subs: seq<SubpageTable>,
                    sec: Section, first: nat, n: nat, q: nat)
    requires 4 <= |sections| && PagesFree(g, flat, subs, sec, first, n)
    requires q < |flat| && PageOk(g, flat, sections, subs, q)
    ensures PageOk(g, SetRange(flat, first, n, |sections|), sections + [sec], WithTable(g, subs, sec), q)
  {
    var flat', sections' := SetRange(flat, first, n, |sections|), sections + [sec];
    if first <= q < first + n {
      assert flat'[q] == |sections| && sections'[|sections|] == sec;
      assert LeafPages(g, flat', sec, |sections|, first, n);
      PageOkIntro(g, flat', sections', WithTable(g, subs, sec), q, first, n);
    } else if flat[q] != UNASSIGNED {
      var s := flat[q];
      assert flat'[q] == s && sections'[s] == sections[s];
      var f: nat, m: nat :| LeafPages(g, flat, sections[s], s, f, m) && f <= q < f + m;
      assert LeafPages(g, flat', sections[s], s, f, m);
      PageOkIntro(g, flat', sections', WithTable(g, subs, sec), q, f, m);
    }
  }

  lemma PageOkIntro(g: Geometry, flat: seq<nat>, sections: seq<Section>, subs: seq<SubpageTable>, q: nat,
                    first: nat, n: nat)
    requires first <= q < first + n && q < |flat| && 4 <= flat[q] < |sections|
    requires LeafPages(g, flat, sections[flat[q]], flat[q], first, n)
    ensures PageOk(g, flat, sections, subs, q)
  {
  }

  lemma AddedSubpageOk(g: Geometry, flat: seq<nat>, sections: seq<Section>, subs: seq<SubpageTable>,
                       sec: Section, first: nat, n: nat, s: nat)
    requires TableOk(g, flat, sections, subs) && PagesFree(g, flat, subs, sec, first, n) && 4 <= s <= |sections|
    ensures SubpageOk(g, SetRange(flat, first, n, |sections|), sections + [sec], WithTable(g, subs, sec), s)
  {
    if s < |sections| {
      assert SubpageOk(g, flat, sections, subs, s);
    } else if sec.mr.Subpage? {
      PageOf(g, first, sec.base);
    }
  }

  lemma AddedExact(g: Geometry, flat: seq<nat>, sections: seq<Section>, subs: seq<SubpageTable>,
                   sec: Section, first: nat, n: nat, t: nat)
    requires TableOk(g, flat, sections, subs) && PagesFree(g, flat, subs, sec, first, n) && 4 <= t <= |sections|
    ensures Exact(g, SetRange(flat, first, n, |sections|), sections + [sec], WithTable(g, subs, sec), t)
  {
    if t < |sections| {
      assert Exact(g, flat, sections, subs, t);
    }
    var sections' := sections + [sec];
    if !sections'[t].mr.Subpage? {
      forall addr: nat | addr < g.space && Covers(g, sections'[t], addr)
        ensures Resolve(g, SetRange(flat, first, n, |sections|), sections', WithTable(g, subs, sec), addr) == t
      {
        AddedResolve(g, flat, sections, subs, sec, first, n, addr);
      }
    }
  }

  /** Giving free pages to a new section: the table stays sound, the section's bytes change to it
      (or, behind a new subpage, stay unassigned) and no other byte changes. */
  lemma PagesAdded(g: Geometry, flat: seq<nat>, sections: seq<Section>, subs: seq<SubpageTable>,
                   sec: Section, first: nat, n: nat)
    requires TableOk(g, flat, sections, subs) && PagesFree(g, flat, subs, sec, first, n)
    ensures TableOk(g, SetRange(flat, first, n, |sections|), sections + [sec], WithTable(g, subs, sec))
  {
    var flat', sections', subs' := SetRange(flat, first, n, |sections|), sections + [sec], WithTable(g, subs, sec);
    assert sections'[..4] == sections[..4];
    forall q | 0 <= q < |flat'| ensures PageOk(g, flat', sections', subs', q) {
      assert PageOk(g, flat, sections, subs, q);
      AddedPageOk(g, flat, sections, subs, sec, first, n, q);
    }
    forall s | 4 <= s < |sections'| ensures SubpageOk(g, flat', sections', subs', s) {
      AddedSubpageOk(g, flat, sections, subs, sec, first, n, s);
    }
    forall addr: nat | addr < g.space ensures ByteOk(g, flat', sections', subs', addr) {
      AddedResolve(g, flat, sections, subs, sec, first, n, addr);
      assert ByteOk(g, flat, sections, subs, addr);
    }
    forall t | 4 <= t < |sections'| ensures Exact(g, flat', sections', subs', t) {
      AddedExact(g, flat, sections, subs, sec, first, n, t);
    }
  }

  /** `sec` lies in page `q`, which has a subpage table, and none of its bytes is assigned. */
  ghost predicate BytesFree(g: Geometry, flat: seq<nat>, sections: seq<Section>, subs: seq<SubpageTable>,
                            sec: Section, q: nat)
  {
    && 0 < g.pageSize && IsPage(g, q, sec.base) && 0 < sec.size && !sec.mr.Subpage?
    && sec.base + sec.size <= q * g.pageSize + g.pageSize && sec.base + sec.size <= g.space
    && q < |flat| && 4 <= flat[q] < |sections| && sections[flat[q]].mr.Subpage?
    && (forall addr: nat :: addr < g.space && Covers(g, sec, addr) ==>
          Resolve(g, flat, sections, subs, addr) == UNASSIGNED)
  }

  /** The tables after the bytes of `sec` were registered in the table of page `q`. */
  ghost function WithBytes(g: Geometry, flat: seq<nat>, sections: seq<Section>, subs: seq<SubpageTable>,
                           sec: Section, q: nat): (subs': seq<SubpageTable>)
    requires BytesFree(g, flat, sections, subs, sec, q) && SubpageOk(g, flat, sections, subs, flat[q])
    ensures |subs'| == |subs|
  {
    var k := sections[flat[q]].mr.id;
    subs[k := SubpageTable(subs[k].base, SetRange(subs[k].sub, sec.base - q * g.pageSize, sec.size, |sections|))]
  }

  lemma CoversRange(g: Geometry, sec: Section, addr: nat)
    requires sec.base + sec.size <= g.space && addr < g.space
    ensures Covers(g, sec, addr) <==> sec.base <= addr < sec.base + sec.size
  {
  }

  /** A page whose section is a subpage starts where that section does. */
  lemma SubpageStart(g: Geometry, flat: seq<nat>, sections: seq<Section>, subs: seq<SubpageTable>, q: nat)
    requires TableOk(g, flat, sections, subs) && q < |flat|
    requires 4 <= flat[q] < |sections| && sections[flat[q]].mr.Subpage?
    ensures SubpageOk(g, flat, sections, subs, flat[q])
    ensures sections[flat[q]].base == q * g.pageSize
  {
    assert PageOk(g, flat, sections, subs, q);
    assert SubpageOk(g, flat, sections, subs, flat[q]);
  }

  /** Two pages with subpage sections have different tables. */
  lemma TablesDistinct(g: Geometry, flat: seq<nat>, sections: seq<Section>, subs: seq<SubpageTable>, q: nat, r: nat)
    requires TableOk(g, flat, sections, subs) && q < |flat| && r < |flat| && q != r
    requires 4 <= flat[q] < |sections| && sections[flat[q]].mr.Subpage?
    requires 4 <= flat[r] < |sections| && sections[flat[r]].mr.Subpage?
    ensures sections[flat[q]].mr.id != sections[flat[r]].mr.id
  {
    SubpageStart(g, flat, sections, subs, q);
    SubpageStart(g, flat, sections, subs, r);
    if q < r {
      MulStep(q, r, g.pageSize);
    } else {
      MulStep(r, q, g.pageSize);
    }
  }

  lemma BytesResolve(g: Geometry, flat: seq<nat>, sections: seq<Section>, subs: seq<SubpageTable>,
                     sec: Section, q: nat, addr: nat)
    requires TableOk(g, flat, sections, subs) && BytesFree(g, flat, sections, subs, sec, q) && addr < g.space
    ensures SubpageOk(g, flat, sections, subs, flat[q])
    ensures Resolve(g, flat, sections + [sec], WithBytes(g, flat, sections, subs, sec, q), addr)
            == if Covers(g, sec, addr) then |sections| else Resolve(g, flat, sections, subs, addr)
  {
    SubpageStart(g, flat, sections, subs, q);
    var subs' := WithBytes(g, flat, sections, subs, sec, q);
    var r := Page(g, addr);
    PageOf(g, r, addr);
    PageOf(g, q, addr);
    CoversRange(g, sec, addr);
    if r != q && r < |flat| {
      assert PageOk(g, flat, sections, subs, r);
      if flat[r] != UNASSIGNED {
        if sections[flat[r]].mr.Subpage? {
          SubpageStart(g, flat, sections, subs, r);
          TablesDistinct(g, flat, sections, subs, q, r);
        }
        SubsectionKept(g, flat, sections, subs, sec, subs', flat[r], addr);
      } else {
        assert !sections[0].mr.Subpage? by { assert sections[..4][0] == sections[0]; }
      }
    }
  }

  lemma BytesSubpageOk(g: Geometry, flat: seq<nat>, sections: seq<Section>, subs: seq<SubpageTable>,
                       sec: Section, q: nat, s: nat)
    requires TableOk(g, flat, sections, subs) && BytesFree(g, flat, sections, subs, sec, q) && 4 <= s <= |sections|
    requires SubpageOk(g, flat, sections, subs, flat[q])
    ensures SubpageOk(g, flat, sections + [sec], WithBytes(g, flat, sections, subs, sec, q), s)
  {
    if s < |sections| {
      assert SubpageOk(g, flat, sections, subs, s);
    }
  }

  lemma BytesExact(g: Geometry, flat: seq<nat>, sections: seq<Section>, subs: seq<SubpageTable>,
                   sec: Section, q: nat, t: nat)
    requires TableOk(g, flat, sections, subs) && BytesFree(g, flat, sections, subs, sec, q) && 4 <= t <= |sections|
    requires SubpageOk(g, flat, sections, subs, flat[q])
    ensures Exact(g, flat, sections + [sec], WithBytes(g, flat, sections, subs, sec, q), t)
  {
    var sections' := sections + [sec];
    if t < |sections| {
      assert Exact(g, flat, sections, subs, t);
    }
    if !sections'[t].mr.Subpage? {
      forall addr: nat | addr < g.space && Covers(g, sections'[t], addr)
        ensures Resolve(g, flat, sections', WithBytes(g, flat, sections, subs, sec, q), addr) == t
      {
        BytesResolve(g, flat, sections, subs, sec, q, addr);
      }
    }
  }

  /** Registering the bytes of a section in its page's table: the table stays sound, those bytes
      change to the section and no other byte changes. */
  lemma BytesAdded(g: Geometry, flat: seq<nat>, sections: seq<Section>, subs: seq<SubpageTable>, sec: Section, q: nat)
    requires TableOk(g, flat, sections, subs) && BytesFree(g, flat, sections, subs, sec, q)
    ensures SubpageOk(g, flat, sections, subs, flat[q])
    ensures TableOk(g, flat, sections + [sec], WithBytes(g, flat, sections, subs, sec, q))
  {
    SubpageStart(g, flat, sections, subs, q);
    var sections', subs' := sections + [sec], WithBytes(g, flat, sections, subs, sec, q);
    assert sections'[..4] == sections[..4];
    forall p | 0 <= p < |flat| ensures PageOk(g, flat, sections', subs', p) {
      assert PageOk(g, flat, sections, subs, p);
      if flat[p] != UNASSIGNED {
        assert sections'[flat[p]] == sections[flat[p]];
      }
    }
    forall s | 4 <= s < |sections'| ensures SubpageOk(g, flat, sections', subs', s) {
      BytesSubpageOk(g, flat, sections, subs, sec, q, s);
    }
    forall addr: nat | addr < g.space ensures ByteOk(g, flat, sections', subs', addr) {
      BytesResolve(g, flat, sections, subs, sec, q, addr);
      assert ByteOk(g, flat, sections, subs, addr);
    }
    forall t | 4 <= t < |sections'| ensures Exact(g, flat, sections', subs', t) {
      BytesExact(g, flat, sections, subs, sec, q, t);
    }
  }
}
