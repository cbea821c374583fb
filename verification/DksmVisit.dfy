/** What one visit keeps: references, what every process reads, the table and its counters. */
module DksmVisit {
  import opened Common
  import opened DksmModel

  ghost predicate Inv(m: Machine) {
    WellFormed(m) && Conserved(m)
  }

  // ---------- References ----------

  lemma RetargetConserves(m: Machine, q: VPage, k: Pfn, prot: Prot)
    requires Inv(m) && q in m.ptes && m.ptes[q].present && Live(m.frames, k)
    ensures Conserved(Retarget(m, q, k, prot))
  {
    var r := Retarget(m, q, k, prot);
    forall f | f in r.frames
      ensures r.frames[f].refs == |Mappers(r.ptes, f)| + Pins(r, f)
    {
      MappersAfterUpdate(m.ptes, q, Pte(k, true, prot), f);
    }
  }

  /** A conserved machine whose entries stay within its frames has only live mapped frames. */
  lemma MappedIsLive(m: Machine)
    requires Conserved(m) && |m.table| == BUCKETS
    requires forall p :: p in m.ptes && m.ptes[p].present ==> m.ptes[p].pfn in m.frames
    ensures WellFormed(m)
  {
    forall p | p in m.ptes && m.ptes[p].present
      ensures Live(m.frames, m.ptes[p].pfn)
    {
      assert p in Mappers(m.ptes, m.ptes[p].pfn);
    }
  }

  /** `r` differs from `m` in frames and entries only by moving entry `q` to a live frame of equal content. */
  ghost predicate MovedTo(m: Machine, r: Machine, q: VPage, k: Pfn, prot: Prot) {
    && q in m.ptes && m.ptes[q].present && Live(m.frames, k) && Live(m.frames, m.ptes[q].pfn)
    && m.frames[k].content == m.frames[m.ptes[q].pfn].content
    && r.frames == Retarget(m, q, k, prot).frames && r.ptes == Retarget(m, q, k, prot).ptes
  }

  /** The merge performed by a visit, when it performs one. */
  function Merging(h: Hash, m: Machine, s: Slot): Option<(VPage, Pfn)>
    requires WellFormed(m)
  {
    if !Acceptable(m, s.page) || !s.memory then None
    else
      var content := m.frames[m.ptes[s.page].pfn].content;
      var ds := m.table[h.bucket(h.xxhash(content))];
      var k := Stop(h, m, s, content);
      if k < |ds| then Some((Site(m.ptes, s).value, ds[k].pfn)) else None
  }

  lemma VisitShape(h: Hash, m: Machine, s: Slot)
    requires WellFormed(m)
    ensures
      var r := Visit(h, m, s);
      && r.pins == m.pins && r.running == m.running && |r.table| == BUCKETS
      && match Merging(h, m, s)
         case None => r.frames == m.frames && r.ptes == m.ptes && r.merged == m.merged
         case Some((q, k)) => MovedTo(m, r, q, k, s.prot) && r.merged == m.merged + 1
  {
    if Acceptable(m, s.page) && s.memory {
      var content := m.frames[m.ptes[s.page].pfn].content;
      var m1 := m.(scanned := m.scanned + 1);
      assert Stop(h, m, s, content) == Stop(h, m1, s, content);
    }
  }

  lemma MoveKeepsInv(m: Machine, r: Machine, q: VPage, k: Pfn, prot: Prot)
    requires Inv(m) && MovedTo(m, r, q, k, prot) && r.pins == m.pins && |r.table| == BUCKETS
    ensures Inv(r)
  {
    RetargetConserves(m, q, k, prot);
    var t := Retarget(m, q, k, prot);
    assert Conserved(r) by {
      assert forall f :: f in r.frames ==> Pins(t, f) == Pins(r, f);
    }
    assert forall p :: p in r.ptes && r.ptes[p].present ==> r.ptes[p].pfn in r.frames;
    MappedIsLive(r);
  }

  lemma MoveKeepsContent(m: Machine, r: Machine, q: VPage, k: Pfn, prot: Prot)
    requires MovedTo(m, r, q, k, prot)
    ensures r.frames.Keys == m.frames.Keys
    ensures forall f :: f in m.frames ==> r.frames[f].content == m.frames[f].content
    ensures forall f :: Live(r.frames, f) ==> Live(m.frames, f)
  {
  }

  lemma MoveKeepsReads(m: Machine, r: Machine, q: VPage, k: Pfn, prot: Prot)
    requires WellFormed(m) && WellFormed(r) && MovedTo(m, r, q, k, prot)
    ensures Reads(r) == Reads(m)
  {
    MoveKeepsContent(m, r, q, k, prot);
    assert Reads(r).Keys == Reads(m).Keys;
    forall p | p in Reads(m)
      ensures Reads(r)[p] == Reads(m)[p]
    {
    }
  }

  /**
    Transparency of one visit, for any table, however stale, and any address located by `replace_page`:
    references stay conserved, every process reads what it read before, and no frame comes to life.
   */
  lemma VisitTransparent(h: Hash, m: Machine, s: Slot)
    requires Inv(m)
    ensures Inv(Visit(h, m, s))
    ensures Reads(Visit(h, m, s)) == Reads(m)
    ensures forall f :: Live(Visit(h, m, s).frames, f) ==> Live(m.frames, f)
  {
    VisitShape(h, m, s);
    var r := Visit(h, m, s);
    match Merging(h, m, s)
    case None =>
      assert forall f :: f in r.frames ==> Pins(m, f) == Pins(r, f);
    case Some((q, k)) =>
      MoveKeepsInv(m, r, q, k, s.prot);
      MoveKeepsReads(m, r, q, k, s.prot);
      MoveKeepsContent(m, r, q, k, s.prot);
  }

  /**
    What a merge frees, exactly: the frame left behind, when the moved entry was its last reference
    and it did not merge with itself. Tracking never keeps a frame alive.
   */
  lemma MergeFrees(h: Hash, m: Machine, s: Slot, f: Pfn)
    requires Inv(m) && Merging(h, m, s).Some? && Live(m.frames, f)
    ensures
      var (q, k) := Merging(h, m, s).value;
      !Live(Visit(h, m, s).frames, f) <==> Mappers(m.ptes, f) == {q} && f != k && Pins(m, f) == 0
  {
    VisitShape(h, m, s);
    var (q, k) := Merging(h, m, s).value;
    if m.ptes[q].pfn == f {
      assert q in Mappers(m.ptes, f);
      if |Mappers(m.ptes, f)| == 1 {
        assert |Mappers(m.ptes, f) - {q}| == 0;
      }
    }
  }
}
