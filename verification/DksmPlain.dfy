/**
  The merged machine against plain memory: virtual pages with contents and protections, and nothing else. Plain memory
  decides by itself which events take effect, so it also tells when merging changes what a process may do.
 */
module DksmPlain {
  import opened DksmModel
  import opened DksmVisit
  import opened DksmRuns
  import opened DksmTheorems

  // ---------- Plain memory ----------

  datatype Cell = Cell(content: Content, prot: Prot)
  type Plain = map<VPage, Cell>

  /** Pages are mapped, shared while read-only, unmapped, and written while writable; frames and merging are nothing. */
  function PlainStep(pl: Plain, e: Event): Plain {
    match e
    case MapFresh(p, _, content, prot, _, _) => if p in pl then pl else pl[p := Cell(content, prot)]
    case Share(p, from) => if p !in pl && from in pl && !pl[from].prot.writable then pl[p := pl[from]] else pl
    case Unmap(p) => pl - {p}
    case Write(p, content) => if p in pl && pl[p].prot.writable then pl[p := Cell(content, pl[p].prot)] else pl
    case _ => pl
  }

  function PlainRun(pl: Plain, es: seq<Event>): Plain
    decreases |es|
  {
    if es == [] then pl else PlainRun(PlainStep(pl, es[0]), es[1..])
  }

  /** What the machine is as plain memory. */
  function Abs(m: Machine): Plain
    requires WellFormed(m)
  {
    map p | p in m.ptes && m.ptes[p].present :: Cell(m.frames[m.ptes[p].pfn].content, m.ptes[p].prot)
  }

  // ---------- Single events ----------

  /** The entry moved by a merge, if any, keeps its protection. */
  predicate KeepsProtection(h: Hash, m: Machine, s: Slot)
    requires WellFormed(m)
  {
    Merging(h, m, s).Some? ==> s.prot == m.ptes[s.page].prot
  }

  /** The entry moved is the one visited, or equal to it. */
  lemma MovedEntry(h: Hash, m: Machine, s: Slot)
    requires WellFormed(m) && Merging(h, m, s).Some?
    ensures
      var q := Merging(h, m, s).value.0;
      s.page in m.ptes && q in m.ptes && m.ptes[q] == m.ptes[s.page]
  {
  }

  /** The protection survives a visit, and a new page gets a frame that is free. */
  predicate Faithful(h: Hash, m: Machine, e: Event)
    requires WellFormed(m)
  {
    match e
    case Advertise(s) => m.running ==> KeepsProtection(h, m, s)
    case MapFresh(p, f, _, _, _, _) => !Present(m, p) ==> !Live(m.frames, f) && Pins(m, f) == 0
    case _ => true
  }

  lemma AbsAfterMove(m: Machine, r: Machine, q: VPage, k: Pfn, prot: Prot)
    requires WellFormed(m) && WellFormed(r) && MovedTo(m, r, q, k, prot)
    ensures Abs(r) == Abs(m)[q := Cell(Abs(m)[q].content, prot)]
  {
    MoveKeepsContent(m, r, q, k, prot);
    assert Abs(r).Keys == Abs(m).Keys;
  }

  /** A visit is invisible, to reads and to what may be written, exactly when its merge keeps the protection. */
  lemma VisitInvisibleExactly(h: Hash, m: Machine, s: Slot)
    requires Inv(m)
    ensures Inv(Visit(h, m, s))
    ensures Abs(Visit(h, m, s)) == Abs(m) <==> KeepsProtection(h, m, s)
  {
    hide Visit, Conserved, Merging;
    VisitTransparent(h, m, s);
    VisitShape(h, m, s);
    match Merging(h, m, s)
    case None =>
    case Some((q, k)) =>
      MovedEntry(h, m, s);
      AbsAfterMove(m, Visit(h, m, s), q, k, s.prot);
      assert Abs(m)[q].prot == m.ptes[q].prot;
      assert s.prot == m.ptes[q].prot ==> Abs(m)[q := Cell(Abs(m)[q].content, s.prot)] == Abs(m);
  }

  lemma MapFollows(h: Hash, m: Machine, e: Event)
    requires WellFormed(m) && WellFormed(Apply(h, m, e)) && e.MapFresh?
    ensures Abs(Apply(h, m, e)) == PlainStep(Abs(m), e) <==> Faithful(h, m, e)
  {
    var r := Apply(h, m, e);
    if Enabled(m, e) {
      assert forall q :: Present(m, q) ==> m.ptes[q].pfn != e.pfn;
      MappedAbs(m, r, e.page, Pte(e.pfn, true, e.prot), Frame(e.content, 1, e.anon, e.huge));
    } else if !Present(m, e.page) {
      assert e.page !in Abs(m) && e.page in PlainStep(Abs(m), e);
    }
  }

  lemma MappedAbs(m: Machine, r: Machine, p: VPage, pte: Pte, frame: Frame)
    requires WellFormed(m) && WellFormed(r) && pte.present
    requires r.ptes == m.ptes[p := pte] && r.frames == m.frames[pte.pfn := frame]
    requires forall q :: Present(m, q) ==> m.ptes[q].pfn != pte.pfn
    ensures Abs(r) == Abs(m)[p := Cell(frame.content, pte.prot)]
  {
  }

  lemma ShareFollows(h: Hash, m: Machine, e: Event)
    requires WellFormed(m) && WellFormed(Apply(h, m, e)) && e.Share?
    ensures Abs(Apply(h, m, e)) == PlainStep(Abs(m), e)
  {
    if Enabled(m, e) {
      assert Abs(Apply(h, m, e)) == Abs(m)[e.page := Abs(m)[e.from]];
    }
  }

  lemma UnmapFollows(h: Hash, m: Machine, e: Event)
    requires WellFormed(m) && WellFormed(Apply(h, m, e)) && e.Unmap?
    ensures Abs(Apply(h, m, e)) == PlainStep(Abs(m), e)
  {
    assert Abs(Apply(h, m, e)) == Abs(m) - {e.page};
  }

  lemma WriteFollows(h: Hash, m: Machine, e: Event)
    requires WellFormed(m) && Exclusive(m) && WellFormed(Apply(h, m, e)) && e.Write?
    ensures Abs(Apply(h, m, e)) == PlainStep(Abs(m), e)
  {
    if Enabled(m, e) {
      assert Abs(Apply(h, m, e)) == Abs(m)[e.page := Cell(e.content, m.ptes[e.page].prot)];
    }
  }

  lemma OthersFollow(h: Hash, m: Machine, e: Event)
    requires WellFormed(m) && WellFormed(Apply(h, m, e)) && (e.Pin? || e.Unpin? || e.SetRun?)
    ensures Abs(Apply(h, m, e)) == Abs(m)
  {
    assert Apply(h, m, e).ptes == m.ptes;
  }

  /** While writable frames are exclusive, an event means the same to both exactly when it is faithful. */
  lemma StepFollowsExactly(h: Hash, m: Machine, e: Event)
    requires Inv(m) && Exclusive(m)
    ensures Inv(Apply(h, m, e))
    ensures Abs(Apply(h, m, e)) == PlainStep(Abs(m), e) <==> Faithful(h, m, e)
  {
    hide Conserved, Exclusive, Abs, Visit, KeepsProtection;
    StepKeepsInv(h, m, e);
    match e
    case Advertise(s) => if m.running { VisitInvisibleExactly(h, m, s); }
    case MapFresh(_, _, _, _, _, _) => MapFollows(h, m, e);
    case Share(_, _) => ShareFollows(h, m, e);
    case Unmap(_) => UnmapFollows(h, m, e);
    case Write(_, _) => WriteFollows(h, m, e);
    case _ => OthersFollow(h, m, e);
  }

  // ---------- Whole runs ----------

  ghost predicate Quiet(h: Hash, m: Machine, e: Event)
    requires WellFormed(m)
  {
    Faithful(h, m, e) && SafeStep(h, m, e)
  }

  /** Every merge is safe and keeps protections, and every new page gets a free frame. */
  ghost predicate QuietRun(h: Hash, m: Machine, es: seq<Event>)
    requires Inv(m)
    decreases |es|
  {
    StepKeepsInv(h, m, if es == [] then Pin(0) else es[0]);
    es == [] || (Quiet(h, m, es[0]) && QuietRun(h, Apply(h, m, es[0]), es[1..]))
  }

  /** Over any quiet run the merged machine is the plain memory that saw the same events. */
  lemma {:induction false} MergingFollowsPlainMemory(h: Hash, m: Machine, es: seq<Event>)
    requires Inv(m) && Exclusive(m) && QuietRun(h, m, es)
    ensures Abs(Run(h, m, es)) == PlainRun(Abs(m), es)
    decreases |es|
  {
    hide Apply, Exclusive, Faithful, SafeStep, WellFormed, Conserved, Abs, PlainStep;
    if es != [] {
      StepFollowsExactly(h, m, es[0]);
      StepKeepsExclusive(h, m, es[0]);
      MergingFollowsPlainMemory(h, Apply(h, m, es[0]), es[1..]);
    }
  }

  // ---------- The conditions are exact ----------

  /** Any process may write next, and memory then is what plain memory would be. */
  ghost predicate WritesFollow(h: Hash, m: Machine)
    requires Inv(m)
  {
    forall p, content {:trigger Write(p, content)} ::
      StepKeepsInv(h, m, Write(p, content));
      Abs(Apply(h, m, Write(p, content))) == PlainStep(Abs(m), Write(p, content))
  }

  lemma SharedWriteSeen(h: Hash, m: Machine, p: VPage, q: VPage, content: Content)
    requires Inv(m) && Present(m, p) && m.ptes[p].prot.writable && Present(m, q) && q != p
    requires m.ptes[q].pfn == m.ptes[p].pfn && content != m.frames[m.ptes[p].pfn].content
    ensures Inv(Apply(h, m, Write(p, content)))
    ensures Abs(Apply(h, m, Write(p, content))) != PlainStep(Abs(m), Write(p, content))
  {
    hide Conserved;
    StepKeepsInv(h, m, Write(p, content));
    var r := Apply(h, m, Write(p, content));
    assert q in Abs(r) && Abs(r)[q].content == content;
    assert q in Abs(m) && Abs(m)[q].content != content;
  }

  /** The next write is private to its page exactly when writable frames are exclusive. */
  lemma WritesFollowExactly(h: Hash, m: Machine)
    requires Inv(m)
    ensures WritesFollow(h, m) <==> Exclusive(m)
  {
    if Exclusive(m) {
      forall p, content
        ensures Inv(Apply(h, m, Write(p, content)))
        ensures Abs(Apply(h, m, Write(p, content))) == PlainStep(Abs(m), Write(p, content))
      {
        StepFollowsExactly(h, m, Write(p, content));
      }
    } else {
      var p, q :| Present(m, p) && m.ptes[p].prot.writable && Present(m, q) && m.ptes[q].pfn == m.ptes[p].pfn && q != p;
      var content := m.frames[m.ptes[p].pfn].content + [0];
      SharedWriteSeen(h, m, p, q, content);
      var e := Write(p, content);
    }
  }

  /** For one visit: whatever is written after it stays private exactly when its merge, if any, is safe. */
  lemma SafeMergeExactly(h: Hash, m: Machine, s: Slot)
    requires Inv(m) && Exclusive(m)
    ensures Inv(Visit(h, m, s)) && (WritesFollow(h, Visit(h, m, s)) <==> SafeMerge(h, m, s))
  {
    hide Visit, Exclusive, SafeMerge, WritesFollow, WellFormed, Conserved;
    VisitTransparent(h, m, s);
    MergeKeepsExclusive(h, m, s);
    WritesFollowExactly(h, Visit(h, m, s));
  }

  /** At every point of the run the next write would stay private. */
  ghost predicate PrivateThroughout(h: Hash, m: Machine, es: seq<Event>)
    requires Inv(m)
    decreases |es|
  {
    StepKeepsInv(h, m, if es == [] then Pin(0) else es[0]);
    WritesFollow(h, m) && (es == [] || PrivateThroughout(h, Apply(h, m, es[0]), es[1..]))
  }

  /** For whole runs: every write, at any point, stays private exactly when every merge is safe. */
  lemma {:induction false} SafeRunExactly(h: Hash, m: Machine, es: seq<Event>)
    requires Inv(m) && Exclusive(m)
    ensures PrivateThroughout(h, m, es) <==> SafeRun(h, m, es)
    decreases |es|
  {
    hide Apply, Exclusive, SafeStep, WritesFollow, WellFormed, Conserved;
    WritesFollowExactly(h, m);
    if es != [] {
      var next := Apply(h, m, es[0]);
      StepKeepsInv(h, m, es[0]);
      StepKeepsExclusive(h, m, es[0]);
      if SafeStep(h, m, es[0]) {
        SafeRunExactly(h, next, es[1..]);
      } else {
        WritesFollowExactly(h, next);
      }
    }
  }

  /** At every point of the run the machine is the plain memory `pl` has become, and so it would be after any write. */
  ghost predicate PlainThroughout(h: Hash, m: Machine, pl: Plain, es: seq<Event>)
    requires Inv(m)
    decreases |es|
  {
    StepKeepsInv(h, m, if es == [] then Pin(0) else es[0]);
    && Abs(m) == pl && WritesFollow(h, m)
    && (es == [] || PlainThroughout(h, Apply(h, m, es[0]), PlainStep(pl, es[0]), es[1..]))
  }

  /** For whole runs: the machine stays plain memory, with all it may do next, exactly when the run is quiet. */
  lemma {:induction false} QuietRunExactly(h: Hash, m: Machine, es: seq<Event>)
    requires Inv(m) && Exclusive(m)
    ensures PlainThroughout(h, m, Abs(m), es) <==> QuietRun(h, m, es)
    decreases |es|
  {
    hide Apply, Exclusive, Faithful, SafeStep, WritesFollow, WellFormed, Conserved, Abs, PlainStep;
    WritesFollowExactly(h, m);
    if es != [] {
      var next := Apply(h, m, es[0]);
      StepFollowsExactly(h, m, es[0]);
      StepKeepsExclusive(h, m, es[0]);
      if Quiet(h, m, es[0]) {
        QuietRunExactly(h, next, es[1..]);
      } else {
        WritesFollowExactly(h, next);
      }
    }
  }
}
