/**
  Two runs that plain memory does not follow. In one only read-only pages are advertised and yet one process reads what
  another writes, because a tracked frame was freed and mapped again before its twin was advertised. In the other a
  page merged with itself loses its write permission and refuses a write.
 */
module DksmReuse {
  import opened Common
  import opened DksmModel
  import opened DksmVisit
  import opened DksmRuns
  import opened DksmTheorems
  import opened DksmPlain

  const FIRST := VPage(0, 0)
  const WRITER := VPage(1, 0)
  const READER := VPage(2, 0)
  const READ_ONLY := Prot(true, false)
  const READ_WRITE := Prot(true, true)

  function Offer(p: VPage): Slot {
    Slot(p, READ_ONLY, Some(p.vaddr), true)
  }

  function Anonymous(p: VPage, pfn: Pfn, prot: Prot): Event {
    MapFresh(p, pfn, [], prot, true, false)
  }

  /** An empty machine with the merger running. */
  function Idle(): Machine {
    Machine(map[], map[], map[], seq(BUCKETS, _ => []), 0, 0, 0, 0, true)
  }

  /**
    Frame 1 is tracked, freed and mapped writable with the same content; a twin in frame 2 is offered; a write
    follows.
   */
  function Story(): seq<Event> {
    [Anonymous(FIRST, 1, READ_ONLY), Advertise(Offer(FIRST)), Unmap(FIRST),
     Anonymous(WRITER, 1, READ_WRITE), Anonymous(READER, 2, READ_ONLY),
     Advertise(Offer(READER)), Write(WRITER, [1])]
  }

  // ---------- Single steps ----------

  /** A page whose bucket is empty is recorded there. */
  lemma FirstOfItsBucket(h: Hash, m: Machine, s: Slot)
    requires WellFormed(m) && Acceptable(m, s.page) && s.memory
    requires m.table[h.bucket(h.xxhash(m.frames[m.ptes[s.page].pfn].content))] == []
    ensures
      var f := m.ptes[s.page].pfn;
      var c := h.xxhash(m.frames[f].content);
      Visit(h, m, s) == m.(scanned := m.scanned + 1, size := m.size + 1,
                           table := m.table[h.bucket(c) := [Descriptor(c, f, s.page.vaddr)]])
  {
    var f := m.ptes[s.page].pfn;
    var content := m.frames[f].content;
    var b := h.bucket(h.xxhash(content));
    var m1 := m.(scanned := m.scanned + 1);
    ScanningEnds(h, m1, content);
    assert Scanned(h, m1, s, content) == m1;
    assert [Descriptor(h.xxhash(content), f, s.page.vaddr)] + m.table[b]
           == [Descriptor(h.xxhash(content), f, s.page.vaddr)];
  }

  /** A page whose bucket holds one up-to-date descriptor of a frame of equal content moves to that frame. */
  lemma MovesToTwin(h: Hash, m: Machine, s: Slot, d: Descriptor)
    requires WellFormed(m) && Acceptable(m, s.page) && s.memory && s.located == Some(s.page.vaddr)
    requires
      var content := m.frames[m.ptes[s.page].pfn].content;
      m.table[h.bucket(h.xxhash(content))] == [d] && Twin(h, m.frames, content, d)
    ensures Merging(h, m, s) == Some((s.page, d.pfn))
  {
  }

  // ---------- The run ----------

  function Page(refs: nat): Frame {
    Frame([], refs, true, false)
  }

  function Machine1(): Machine {
    Idle().(frames := map[1 := Page(1)], ptes := map[FIRST := Pte(1, true, READ_ONLY)])
  }

  function Machine2(h: Hash): Machine {
    var c := h.xxhash([]);
    Machine1().(table := Idle().table[h.bucket(c) := [Descriptor(c, 1, 0)]], scanned := 1, size := 1)
  }

  function Machine3(h: Hash): Machine {
    Machine2(h).(frames := map[1 := Page(0)], ptes := map[])
  }

  function Machine4(h: Hash): Machine {
    Machine2(h).(frames := map[1 := Page(1)], ptes := map[WRITER := Pte(1, true, READ_WRITE)])
  }

  /** The descriptor still names frame 1, which is now the writer's. */
  function Machine5(h: Hash): Machine {
    Machine2(h).(frames := map[1 := Page(1), 2 := Page(1)],
                 ptes := map[WRITER := Pte(1, true, READ_WRITE), READER := Pte(2, true, READ_ONLY)])
  }

  lemma IdleIsGood()
    ensures Inv(Idle()) && Exclusive(Idle()) && Abs(Idle()) == map[]
  {
  }

  lemma Step1(h: Hash)
    ensures WellFormed(Idle()) && Apply(h, Idle(), Story()[0]) == Machine1()
  {
    assert Apply(h, Idle(), Story()[0]).frames == Machine1().frames;
  }

  lemma Step2(h: Hash)
    ensures WellFormed(Machine1()) && Apply(h, Machine1(), Story()[1]) == Machine2(h)
  {
    hide Visit;
    FirstOfItsBucket(h, Machine1(), Offer(FIRST));
  }

  lemma Step3(h: Hash)
    ensures WellFormed(Machine2(h)) && Apply(h, Machine2(h), Story()[2]) == Machine3(h)
  {
    var r := Apply(h, Machine2(h), Story()[2]);
    assert r.frames == Machine3(h).frames && r.ptes == Machine3(h).ptes;
  }

  lemma Step4(h: Hash)
    ensures WellFormed(Machine3(h)) && Apply(h, Machine3(h), Story()[3]) == Machine4(h)
  {
    var r := Apply(h, Machine3(h), Story()[3]);
    assert r.frames == Machine4(h).frames && r.ptes == Machine4(h).ptes;
  }

  lemma Step5(h: Hash)
    ensures WellFormed(Machine4(h)) && Apply(h, Machine4(h), Story()[4]) == Machine5(h)
  {
    var r := Apply(h, Machine4(h), Story()[4]);
    assert r.frames == Machine5(h).frames && r.ptes == Machine5(h).ptes;
  }

  /** The twin moves to the writer's frame. */
  lemma Step6(h: Hash) returns (m: Machine)
    ensures WellFormed(Machine5(h)) && m == Apply(h, Machine5(h), Story()[5])
    ensures 1 in m.frames && m.ptes == map[WRITER := Pte(1, true, READ_WRITE), READER := Pte(1, true, READ_ONLY)]
  {
    hide Visit;
    MovesToTwin(h, Machine5(h), Offer(READER), Descriptor(h.xxhash([]), 1, 0));
    VisitShape(h, Machine5(h), Offer(READER));
    m := Visit(h, Machine5(h), Offer(READER));
    assert Machine5(h).ptes[READER := Pte(1, true, READ_ONLY)]
           == map[WRITER := Pte(1, true, READ_WRITE), READER := Pte(1, true, READ_ONLY)];
  }

  lemma Step7(h: Hash, m: Machine)
    requires Inv(m) && 1 in m.frames
    requires m.ptes == map[WRITER := Pte(1, true, READ_WRITE), READER := Pte(1, true, READ_ONLY)]
    ensures Inv(Apply(h, m, Story()[6])) && READER in Abs(Apply(h, m, Story()[6]))
    ensures Abs(Apply(h, m, Story()[6]))[READER] == Cell([1], READ_ONLY)
  {
    hide Conserved;
    StepKeepsInv(h, m, Story()[6]);
    var r := Apply(h, m, Story()[6]);
    assert r.ptes == m.ptes && r.frames[1].content == [1];
  }

  /** Running one event and then the rest. */
  lemma RunOne(h: Hash, m: Machine, es: seq<Event>, k: nat)
    requires Inv(m) && k < |es|
    ensures Inv(Apply(h, m, es[k])) && Run(h, m, es[k..]) == Run(h, Apply(h, m, es[k]), es[k + 1..])
    ensures SafeRun(h, m, es[k..]) <==> SafeStep(h, m, es[k]) && SafeRun(h, Apply(h, m, es[k]), es[k + 1..])
  {
    hide Apply, WellFormed, Conserved, SafeStep;
    StepKeepsInv(h, m, es[k]);
    assert es[k..][0] == es[k] && es[k..][1..] == es[k + 1..];
  }

  lemma PlainOne(pl: Plain, es: seq<Event>, k: nat)
    requires k < |es|
    ensures PlainRun(pl, es[k..]) == PlainRun(PlainStep(pl, es[k]), es[k + 1..])
  {
    hide PlainStep;
    assert es[k..][0] == es[k] && es[k..][1..] == es[k + 1..];
  }

  /** Up to the offer of the twin all is well. */
  lemma Trapped(h: Hash)
    ensures Inv(Idle()) && Inv(Machine5(h)) && Run(h, Idle(), Story()) == Run(h, Machine5(h), Story()[5..])
    ensures SafeRun(h, Idle(), Story()) ==> SafeRun(h, Machine5(h), Story()[5..])
  {
    hide Apply, SafeStep, WellFormed, Conserved, Idle, Machine1, Machine2, Machine3, Machine4, Machine5, Story;
    IdleIsGood();
    StoryLength();
    Step1(h);
    RunOne(h, Idle(), Story(), 0);
    Step2(h);
    RunOne(h, Machine1(), Story(), 1);
    Step3(h);
    RunOne(h, Machine2(h), Story(), 2);
    Step4(h);
    RunOne(h, Machine3(h), Story(), 3);
    Step5(h);
    RunOne(h, Machine4(h), Story(), 4);
    assert Story()[0..] == Story();
  }

  lemma StoryLength()
    ensures |Story()| == 7
  {
  }

  lemma PlainStory()
    ensures READER in PlainRun(map[], Story()) && PlainRun(map[], Story())[READER] == Cell([], READ_ONLY)
  {
    hide PlainRun;
    var es := Story();
    assert es[0..] == es && es[7..] == [];
    var p1 := PlainStep(map[], es[0]);
    var p3 := PlainStep(p1, es[2]);
    var p4 := PlainStep(p3, es[3]);
    var p5 := PlainStep(p4, es[4]);
    var p7 := PlainStep(p5, es[6]);
    assert p3 == map[] && READER !in p4;
    PlainOne(map[], es, 0);
    PlainOne(p1, es, 1);
    PlainOne(p1, es, 2);
    PlainOne(p3, es, 3);
    PlainOne(p4, es, 4);
    PlainOne(p5, es, 5);
    PlainOne(p5, es, 6);
    PlainEnd(p7);
  }

  lemma PlainEnd(pl: Plain)
    ensures PlainRun(pl, []) == pl
  {
  }

  lemma OnlyReadOnlyOffered(i: nat)
    requires i < |Story()| && Story()[i].Advertise?
    ensures !Story()[i].slot.prot.writable
  {
  }

  lemma Ending(h: Hash, m: Machine)
    requires Inv(m) && 1 in m.frames
    requires m.ptes == map[WRITER := Pte(1, true, READ_WRITE), READER := Pte(1, true, READ_ONLY)]
    ensures READER in Abs(Run(h, m, Story()[6..])) && Abs(Run(h, m, Story()[6..]))[READER] == Cell([1], READ_ONLY)
  {
    hide WellFormed, Conserved, Apply, Story, Abs;
    StoryLength();
    Step7(h, m);
    RunOne(h, m, Story(), 6);
    assert Story()[7..] == [];
  }

  /**
    Every slot offered is read-only, yet the reader ends up with the writer's byte: in plain memory it would still
    read its own. The merge was not safe.
   */
  lemma ReuseLeaksWrites(h: Hash)
    ensures Inv(Idle()) && Exclusive(Idle()) && Abs(Idle()) == map[]
    ensures forall i: nat :: i < |Story()| && Story()[i].Advertise? ==> !Story()[i].slot.prot.writable
    ensures READER in Abs(Run(h, Idle(), Story())) && Abs(Run(h, Idle(), Story()))[READER] == Cell([1], READ_ONLY)
    ensures READER in PlainRun(map[], Story()) && PlainRun(map[], Story())[READER] == Cell([], READ_ONLY)
    ensures !SafeRun(h, Idle(), Story())
  {
    hide WellFormed, Conserved, Idle, Machine5, Story, Exclusive, Abs, PlainRun, Apply, SafeStep;
    forall i: nat | i < |Story()| && Story()[i].Advertise?
      ensures !Story()[i].slot.prot.writable
    {
      OnlyReadOnlyOffered(i);
    }
    IdleIsGood();
    StoryLength();
    Trapped(h);
    var m := Step6(h);
    RunOne(h, Machine5(h), Story(), 5);
    Ending(h, m);
    PlainStory();
    Unsafe(h);
  }

  lemma Unsafe(h: Hash)
    ensures WellFormed(Machine5(h)) && !SafeStep(h, Machine5(h), Story()[5])
  {
    var m := Machine5(h);
    MovesToTwin(h, m, Offer(READER), Descriptor(h.xxhash([]), 1, 0));
    hide Merging;
    assert Present(m, WRITER) && WRITER != READER && m.ptes[WRITER].pfn == 1 && m.ptes[WRITER].prot.writable;
  }

  // ---------- A write refused ----------

  /** One writable page, tracked, then offered with a read-only protection, then written. */
  function Demotion(): seq<Event> {
    [Anonymous(FIRST, 1, READ_WRITE), Advertise(Offer(FIRST).(prot := READ_WRITE)), Advertise(Offer(FIRST)),
     Write(FIRST, [1])]
  }

  function Alone(): Machine {
    Idle().(frames := map[1 := Page(1)], ptes := map[FIRST := Pte(1, true, READ_WRITE)])
  }

  function AloneTracked(h: Hash): Machine {
    var c := h.xxhash([]);
    Alone().(table := Idle().table[h.bucket(c) := [Descriptor(c, 1, 0)]], scanned := 1, size := 1)
  }

  lemma Demotion1(h: Hash)
    ensures WellFormed(Idle()) && Apply(h, Idle(), Demotion()[0]) == Alone() && SafeStep(h, Idle(), Demotion()[0])
  {
    assert Apply(h, Idle(), Demotion()[0]).frames == Alone().frames;
  }

  lemma Demotion2(h: Hash)
    ensures WellFormed(Alone()) && Apply(h, Alone(), Demotion()[1]) == AloneTracked(h)
    ensures SafeStep(h, Alone(), Demotion()[1])
  {
    hide Visit;
    FirstOfItsBucket(h, Alone(), Offer(FIRST).(prot := READ_WRITE));
  }

  /** The page finds its own frame, and its entry is written anew with the protection of the area. */
  lemma Demotion3(h: Hash) returns (m: Machine)
    ensures WellFormed(AloneTracked(h)) && m == Apply(h, AloneTracked(h), Demotion()[2])
    ensures SafeStep(h, AloneTracked(h), Demotion()[2])
    ensures m.ptes == map[FIRST := Pte(1, true, READ_ONLY)] && 1 in m.frames && m.frames[1].content == []
  {
    hide Visit;
    MovesToTwin(h, AloneTracked(h), Offer(FIRST), Descriptor(h.xxhash([]), 1, 0));
    VisitShape(h, AloneTracked(h), Offer(FIRST));
    m := Visit(h, AloneTracked(h), Offer(FIRST));
    assert AloneTracked(h).ptes[FIRST := Pte(1, true, READ_ONLY)] == map[FIRST := Pte(1, true, READ_ONLY)];
  }

  lemma Demotion4(h: Hash, m: Machine)
    requires Inv(m) && m.ptes == map[FIRST := Pte(1, true, READ_ONLY)] && 1 in m.frames && m.frames[1].content == []
    ensures Apply(h, m, Demotion()[3]) == m && Abs(m) == map[FIRST := Cell([], READ_ONLY)]
    ensures SafeStep(h, m, Demotion()[3])
  {
    hide Conserved;
  }

  lemma PlainDemotion()
    ensures PlainRun(map[], Demotion()) == map[FIRST := Cell([1], READ_WRITE)]
  {
    hide PlainRun;
    var es := Demotion();
    assert es[0..] == es && es[4..] == [];
    var p1 := PlainStep(map[], es[0]);
    var p4 := PlainStep(p1, es[3]);
    assert p4 == map[FIRST := Cell([1], READ_WRITE)];
    PlainOne(map[], es, 0);
    PlainOne(p1, es, 1);
    PlainOne(p1, es, 2);
    PlainOne(p1, es, 3);
    PlainEnd(p4);
  }

  lemma DemotionLength()
    ensures |Demotion()| == 4
  {
  }

  /** All merges are safe, yet the page can no longer be written: the merge did not keep its protection. */
  lemma DemotionRefusesWrite(h: Hash)
    ensures Inv(Idle()) && Exclusive(Idle()) && Abs(Idle()) == map[] && SafeRun(h, Idle(), Demotion())
    ensures Abs(Run(h, Idle(), Demotion())) == map[FIRST := Cell([], READ_ONLY)]
    ensures PlainRun(map[], Demotion()) == map[FIRST := Cell([1], READ_WRITE)]
    ensures !QuietRun(h, Idle(), Demotion())
  {
    hide WellFormed, Conserved, Idle, Alone, AloneTracked, Demotion, Exclusive, Abs, PlainRun, Apply, SafeStep;
    IdleIsGood();
    DemotionLength();
    Demotion1(h);
    RunOne(h, Idle(), Demotion(), 0);
    Demotion2(h);
    RunOne(h, Alone(), Demotion(), 1);
    var m := Demotion3(h);
    RunOne(h, AloneTracked(h), Demotion(), 2);
    Demotion4(h, m);
    RunOne(h, m, Demotion(), 3);
    assert Demotion()[0..] == Demotion() && Demotion()[4..] == [];
    PlainDemotion();
    CellsDiffer();
    if QuietRun(h, Idle(), Demotion()) {
      MergingFollowsPlainMemory(h, Idle(), Demotion());
    }
  }

  lemma CellsDiffer()
    ensures map[FIRST := Cell([], READ_ONLY)] != map[FIRST := Cell([1], READ_WRITE)]
  {
    assert map[FIRST := Cell([], READ_ONLY)][FIRST] != map[FIRST := Cell([1], READ_WRITE)][FIRST];
  }
}
