/** The merger inside its environment: every interleaving of visits, start and stop, and process activity. */
module DksmRuns {
  import opened DksmModel
  import opened DksmVisit

  datatype Event =
    | Advertise(slot: Slot)
    | SetRun(on: bool)
    | MapFresh(page: VPage, pfn: Pfn, content: Content, prot: Prot, anon: bool, huge: bool)
    | Share(page: VPage, from: VPage)
    | Unmap(page: VPage)
    | Write(page: VPage, content: Content)
    | Pin(pfn: Pfn)
    | Unpin(pfn: Pfn)

  predicate Present(m: Machine, p: VPage) {
    p in m.ptes && m.ptes[p].present
  }

  /** Events that cannot happen in a state leave it unchanged. A freed frame may be mapped again while tracked. */
  predicate Enabled(m: Machine, e: Event) {
    match e
    case Advertise(_) => m.running
    case SetRun(_) => true
    case MapFresh(p, f, _, _, _, _) => !Present(m, p) && !Live(m.frames, f) && Pins(m, f) == 0
    case Share(p, from) => !Present(m, p) && Present(m, from) && !m.ptes[from].prot.writable
    case Unmap(p) => Present(m, p)
    case Write(p, _) => Present(m, p) && m.ptes[p].prot.writable
    case Pin(f) => Live(m.frames, f)
    case Unpin(f) => f in m.frames && Pins(m, f) > 0
  }

  function Halt(m: Machine): Machine {
    m.(table := seq(|m.table|, _ => []), scanned := 0, merged := 0, failed := 0, size := 0, running := false)
  }

  function Apply(h: Hash, m: Machine, e: Event): Machine
    requires WellFormed(m)
  {
    if !Enabled(m, e) then m
    else match e
      case Advertise(s) => Visit(h, m, s)
      case SetRun(on) => if on == m.running then m else if on then m.(running := true) else Halt(m)
      case MapFresh(p, f, content, prot, anon, huge) =>
        m.(frames := m.frames[f := Frame(content, 1, anon, huge)], ptes := m.ptes[p := Pte(f, true, prot)])
      case Share(p, from) =>
        m.(frames := AddRef(m.frames, m.ptes[from].pfn, 1), ptes := m.ptes[p := m.ptes[from]])
      case Unmap(p) =>
        m.(frames := AddRef(m.frames, m.ptes[p].pfn, -1), ptes := m.ptes - {p})
      case Write(p, content) =>
        var f := m.ptes[p].pfn;
        m.(frames := m.frames[f := m.frames[f].(content := content)])
      case Pin(f) => m.(frames := AddRef(m.frames, f, 1), pins := m.pins[f := Pins(m, f) + 1])
      case Unpin(f) =>
        m.(frames := m.frames[f := m.frames[f].(refs := if m.frames[f].refs == 0 then 0 else m.frames[f].refs - 1)],
           pins := m.pins[f := Pins(m, f) - 1])
  }

  /** Taking a reference from outside and giving it back undoes itself. */
  lemma PinUndone(h: Hash, m: Machine, f: Pfn)
    requires WellFormed(m) && Live(m.frames, f)
    ensures WellFormed(Apply(h, m, Pin(f)))
    ensures
      var r := Apply(h, Apply(h, m, Pin(f)), Unpin(f));
      r.frames == m.frames && r == m.(pins := r.pins) && forall g :: Pins(r, g) == Pins(m, g)
  {
  }

  // ---------- Reference conservation in every run ----------

  lemma MappersAfterAdd(ptes: map<VPage, Pte>, p: VPage, pte: Pte, f: Pfn)
    requires !(p in ptes && ptes[p].present) && pte.present
    ensures |Mappers(ptes[p := pte], f)| == |Mappers(ptes, f)| + (if pte.pfn == f then 1 else 0)
  {
    assert Mappers(ptes[p := pte], f) == Mappers(ptes, f) + (if pte.pfn == f then {p} else {});
  }

  lemma MappersAfterRemove(ptes: map<VPage, Pte>, p: VPage, f: Pfn)
    requires p in ptes && ptes[p].present
    ensures |Mappers(ptes - {p}, f)| == |Mappers(ptes, f)| - (if ptes[p].pfn == f then 1 else 0)
  {
    assert Mappers(ptes, f) == Mappers(ptes - {p}, f) + (if ptes[p].pfn == f then {p} else {});
  }

  /** Entries within frames plus conservation is the invariant; this is what each case establishes. */
  ghost predicate Sound(m: Machine) {
    && |m.table| == BUCKETS && Conserved(m)
    && forall p :: p in m.ptes && m.ptes[p].present ==> m.ptes[p].pfn in m.frames
  }

  lemma MapConserves(h: Hash, m: Machine, e: Event)
    requires Inv(m) && Enabled(m, e) && e.MapFresh?
    ensures Sound(Apply(h, m, e))
  {
    var r := Apply(h, m, e);
    forall f | f in r.frames
      ensures r.frames[f].refs == |Mappers(r.ptes, f)| + Pins(r, f)
    {
      MappersAfterAdd(m.ptes, e.page, Pte(e.pfn, true, e.prot), f);
      if f == e.pfn {
        assert Mappers(m.ptes, f) == {};
      }
    }
  }

  lemma ShareConserves(h: Hash, m: Machine, e: Event)
    requires Inv(m) && Enabled(m, e) && e.Share?
    ensures Sound(Apply(h, m, e))
  {
    var r := Apply(h, m, e);
    forall f | f in r.frames
      ensures r.frames[f].refs == |Mappers(r.ptes, f)| + Pins(r, f)
    {
      MappersAfterAdd(m.ptes, e.page, m.ptes[e.from], f);
    }
  }

  lemma UnmapConserves(h: Hash, m: Machine, e: Event)
    requires Inv(m) && Enabled(m, e) && e.Unmap?
    ensures Sound(Apply(h, m, e))
  {
    var r := Apply(h, m, e);
    forall f | f in r.frames
      ensures r.frames[f].refs == |Mappers(r.ptes, f)| + Pins(r, f)
    {
      MappersAfterRemove(m.ptes, e.page, f);
    }
  }

  lemma StepKeepsInv(h: Hash, m: Machine, e: Event)
    requires Inv(m)
    ensures Inv(Apply(h, m, e))
  {
    if Enabled(m, e) {
      match e
      case Advertise(s) => VisitTransparent(h, m, s);
      case SetRun(_) =>
        assert forall f :: Pins(Apply(h, m, e), f) == Pins(m, f);
      case MapFresh(_, _, _, _, _, _) => MapConserves(h, m, e); MappedIsLive(Apply(h, m, e));
      case Share(_, _) => ShareConserves(h, m, e); MappedIsLive(Apply(h, m, e));
      case Unmap(_) => UnmapConserves(h, m, e); MappedIsLive(Apply(h, m, e));
      case Write(_, _) =>
        assert forall f :: Pins(Apply(h, m, e), f) == Pins(m, f);
      case Pin(_) =>
      case Unpin(_) => MappedIsLive(Apply(h, m, e));
    }
  }

  function Run(h: Hash, m: Machine, es: seq<Event>): (r: Machine)
    requires Inv(m)
    ensures Inv(r)
    decreases |es|
  {
    StepKeepsInv(h, m, if es == [] then Pin(0) else es[0]);
    if es == [] then m else Run(h, Apply(h, m, es[0]), es[1..])
  }

  lemma {:induction false} RunSnoc(h: Hash, m: Machine, es: seq<Event>, e: Event)
    requires Inv(m)
    ensures Run(h, m, es + [e]) == Apply(h, Run(h, m, es), e)
    decreases |es|
  {
    StepKeepsInv(h, m, if es == [] then e else es[0]);
    if es == [] {
      assert es + [e] == [e];
    } else {
      assert (es + [e])[1..] == es[1..] + [e];
      RunSnoc(h, Apply(h, m, es[0]), es[1..], e);
    }
  }

  /** The walk over a range hands each slot to the callback in turn. */
  function Advertisements(slots: seq<Slot>): seq<Event> {
    if slots == [] then [] else Advertisements(slots[..|slots| - 1]) + [Advertise(slots[|slots| - 1])]
  }
}
