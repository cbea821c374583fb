/** What holds over whole runs: invisibility of merging, isolation of writers, accounting. */
module DksmTheorems {
  import opened DksmModel
  import opened DksmVisit
  import opened DksmTable
  import opened DksmRuns

  // ---------- Transparency ----------

  /** In any run, a step of the merger itself changes nothing that any process reads. */
  lemma MergerStepsInvisible(h: Hash, m0: Machine, es: seq<Event>, e: Event)
    requires Inv(m0) && (e.Advertise? || e.SetRun?)
    ensures Inv(Apply(h, Run(h, m0, es), e))
    ensures Reads(Apply(h, Run(h, m0, es), e)) == Reads(Run(h, m0, es))
  {
    var m := Run(h, m0, es);
    StepKeepsInv(h, m, e);
    if e.Advertise? {
      VisitTransparent(h, m, e.slot);
    }
  }

  // ---------- Isolation of writers ----------

  /** A page mapped writable is the only mapping of its frame. */
  ghost predicate Exclusive(m: Machine) {
    forall p, q :: Present(m, p) && m.ptes[p].prot.writable && Present(m, q) && m.ptes[q].pfn == m.ptes[p].pfn ==>
      q == p
  }

  /**
    The frame merged into is mapped by no other page, or by read-only pages only while the moved entry becomes
    read-only as well. A tracked frame that was freed and mapped again, writable, is what this rules out.
   */
  ghost predicate SafeMerge(h: Hash, m: Machine, s: Slot)
    requires WellFormed(m)
  {
    match Merging(h, m, s)
    case None => true
    case Some((q, k)) =>
      forall p :: Present(m, p) && p != q && m.ptes[p].pfn == k ==> !m.ptes[p].prot.writable && !s.prot.writable
  }

  ghost predicate SafeStep(h: Hash, m: Machine, e: Event)
    requires WellFormed(m)
  {
    e.Advertise? && m.running ==> SafeMerge(h, m, e.slot)
  }

  /** Every merge of the run is safe; nothing is asked of any other event. */
  ghost predicate SafeRun(h: Hash, m: Machine, es: seq<Event>)
    requires Inv(m)
    decreases |es|
  {
    StepKeepsInv(h, m, if es == [] then Pin(0) else es[0]);
    es == [] || (SafeStep(h, m, es[0]) && SafeRun(h, Apply(h, m, es[0]), es[1..]))
  }

  /** A visit leaves every writable frame with one mapping exactly when its merge, if any, is safe. */
  lemma MergeKeepsExclusive(h: Hash, m: Machine, s: Slot)
    requires Inv(m) && Exclusive(m)
    ensures Exclusive(Visit(h, m, s)) <==> SafeMerge(h, m, s)
  {
    hide Conserved, Visit, Merging;
    VisitShape(h, m, s);
    if Merging(h, m, s).Some? {
      var (q, k) := Merging(h, m, s).value;
      MovedKeepsExclusive(m, Visit(h, m, s), q, k, s.prot);
    } else {
      assert forall p :: Present(Visit(h, m, s), p) <==> Present(m, p);
    }
  }

  lemma MovedKeepsExclusive(m: Machine, r: Machine, q: VPage, k: Pfn, prot: Prot)
    requires Exclusive(m) && Present(m, q) && r.ptes == m.ptes[q := Pte(k, true, prot)]
    ensures
      Exclusive(r) <==>
      forall p :: Present(m, p) && p != q && m.ptes[p].pfn == k ==> !m.ptes[p].prot.writable && !prot.writable
  {
    assert Present(r, q) && r.ptes[q].pfn == k && r.ptes[q].prot == prot;
    assert forall p :: p != q ==> Present(r, p) == Present(m, p);
    assert forall p :: p != q && Present(m, p) ==> r.ptes[p] == m.ptes[p];
  }

  lemma EnvironmentKeepsExclusive(h: Hash, m: Machine, e: Event)
    requires Inv(m) && Exclusive(m) && !e.Advertise?
    ensures Exclusive(Apply(h, m, e))
  {
    hide Conserved, Visit;
    var r := Apply(h, m, e);
    if Enabled(m, e) && e.MapFresh? {
      assert forall p :: Present(m, p) ==> m.ptes[p].pfn != e.pfn;
    }
  }

  /** Whatever happens, frames reused while still tracked included, only an unsafe merge ends exclusiveness. */
  lemma StepKeepsExclusive(h: Hash, m: Machine, e: Event)
    requires Inv(m) && Exclusive(m)
    ensures Exclusive(Apply(h, m, e)) <==> SafeStep(h, m, e)
  {
    hide Conserved, Visit, SafeMerge, Exclusive;
    if !e.Advertise? {
      EnvironmentKeepsExclusive(h, m, e);
    } else if m.running {
      MergeKeepsExclusive(h, m, e.slot);
    }
  }

  // ---------- Accounting ----------

  ghost predicate EmptyTable(m: Machine) {
    forall b :: 0 <= b < |m.table| ==> m.table[b] == []
  }

  /** The size counter is the number of descriptors, and a stopped merger has no state at all. */
  ghost predicate Accounted(m: Machine) {
    && m.size == TotalSize(m.table)
    && (!m.running ==> EmptyTable(m) && m.scanned == m.merged == m.failed == 0)
  }

  /** Descriptors added since the last stop, given the number added before. */
  function Added(h: Hash, m: Machine, es: seq<Event>, before: nat): nat
    requires Inv(m)
    decreases |es|
  {
    StepKeepsInv(h, m, if es == [] then Pin(0) else es[0]);
    if es == [] then before else Added(h, Apply(h, m, es[0]), es[1..], AddedBy(h, m, es[0], before))
  }

  function AddedBy(h: Hash, m: Machine, e: Event, before: nat): nat
    requires WellFormed(m)
  {
    if e.SetRun? && !e.on then 0
    else if e.Advertise? && m.running && Acceptable(m, e.slot.page) && e.slot.memory && Merging(h, m, e.slot).None?
    then before + 1 else before
  }

  lemma StepAccounts(h: Hash, m: Machine, e: Event)
    requires Inv(m) && Accounted(m)
    ensures Accounted(Apply(h, m, e))
  {
    var r := Apply(h, m, e);
    if e.Advertise? {
      if m.running {
        VisitCounts(h, m, e.slot);
        VisitShape(h, m, e.slot);
      }
    } else if e.SetRun? {
      if !r.running { EmptyTotal(r.table); }
    }
  }

  lemma StepAdds(h: Hash, m: Machine, e: Event, added: nat)
    requires Inv(m) && Accounted(m) && m.scanned == m.merged + added
    ensures Apply(h, m, e).scanned == Apply(h, m, e).merged + AddedBy(h, m, e, added)
  {
    hide Conserved, Visit, TotalSize;
    if e.Advertise? && m.running {
      VisitShape(h, m, e.slot);
      VisitCounts(h, m, e.slot);
    }
  }

  /**
    In every run: the size counter counts the table, pages scanned are pages merged plus descriptors added
    since the last stop, and whenever the merger is stopped the table is empty and every counter is zero.
   */
  lemma {:induction false} RunAccounts(h: Hash, m: Machine, es: seq<Event>, added: nat)
    requires Inv(m) && Accounted(m) && m.scanned == m.merged + added
    ensures Accounted(Run(h, m, es))
    ensures Run(h, m, es).scanned == Run(h, m, es).merged + Added(h, m, es, added)
    decreases |es|
  {
    hide Apply, WellFormed, Conserved, Accounted, AddedBy;
    if es != [] {
      StepAccounts(h, m, es[0]);
      StepAdds(h, m, es[0], added);
      StepKeepsInv(h, m, es[0]);
      RunAccounts(h, Apply(h, m, es[0]), es[1..], AddedBy(h, m, es[0], added));
    }
  }
}
