/** Optimal sharing: what the merger achieves when nothing gets in its way. */
module DksmSharing {
  import opened Common
  import opened DksmModel
  import opened DksmVisit
  import opened DksmTable
  import opened DksmRuns

  // ---------- The bucketed lookup ----------

  /** Every descriptor sits in the bucket of its checksum. */
  ghost predicate Hashed(h: Hash, m: Machine) {
    forall b, d :: 0 <= b < |m.table| && d in m.table[b] ==> b == h.bucket(d.checksum)
  }

  lemma StepKeepsHashed(h: Hash, m: Machine, e: Event)
    requires Inv(m) && Hashed(h, m)
    ensures Hashed(h, Apply(h, m, e))
  {
    var r := Apply(h, m, e);
    if e.Advertise? && m.running {
      VisitShape(h, m, e.slot);
      forall b, d | 0 <= b < |r.table| && d in r.table[b]
        ensures b == h.bucket(d.checksum)
      {
        VisitTable(h, m, e.slot, b, d);
      }
    } else if e.SetRun? {
      assert r.table == m.table || forall b :: 0 <= b < |r.table| ==> r.table[b] == [];
    } else {
      assert r.table == m.table;
    }
  }

  lemma {:induction false} RunKeepsHashed(h: Hash, m: Machine, es: seq<Event>)
    requires Inv(m) && Hashed(h, m)
    ensures Hashed(h, Run(h, m, es))
    decreases |es|
  {
    if es != [] {
      StepKeepsHashed(h, m, es[0]);
      StepKeepsInv(h, m, es[0]);
      RunKeepsHashed(h, Apply(h, m, es[0]), es[1..]);
    }
  }

  /** In every run, looking in one bucket finds a twin exactly when a scan of the whole table would. */
  lemma LookupMissesNothing(h: Hash, m0: Machine, es: seq<Event>, content: Content)
    requires Inv(m0) && Hashed(h, m0)
    ensures
      var m := Run(h, m0, es);
      var ds := m.table[h.bucket(h.xxhash(content))];
      FirstTwin(h, m.frames, content, ds) < |ds|
      <==> exists b, d :: 0 <= b < |m.table| && d in m.table[b] && Twin(h, m.frames, content, d)
  {
    RunKeepsHashed(h, m0, es);
    var m := Run(h, m0, es);
    var ds := m.table[h.bucket(h.xxhash(content))];
    var k := FirstTwin(h, m.frames, content, ds);
    if k < |ds| {
      assert ds[k] in ds;
    }
  }

  // ---------- Cooperative runs ----------

  function ContentOf(m: Machine, p: VPage): Content
    requires WellFormed(m) && Present(m, p)
  {
    m.frames[m.ptes[p].pfn].content
  }

  /** Frame `f` has an up-to-date descriptor in the right bucket. */
  ghost predicate Indexed(h: Hash, m: Machine, f: Pfn)
    requires |m.table| == BUCKETS
  {
    f in m.frames &&
    var c := h.xxhash(m.frames[f].content);
    exists d :: d in m.table[h.bucket(c)] && d.pfn == f && d.checksum == c
  }

  /** A descriptor of a frame that an advertised page maps, with a checksum still right. */
  ghost predicate Backed(h: Hash, m: Machine, pages: set<VPage>, d: Descriptor) {
    && d.pfn in m.frames && d.checksum == h.xxhash(m.frames[d.pfn].content)
    && exists p :: p in pages && Present(m, p) && m.ptes[p].pfn == d.pfn
  }

  ghost predicate Sharing(h: Hash, m: Machine, pages: set<VPage>)
    requires WellFormed(m)
  {
    && (forall p :: p in pages ==> Present(m, p) && Indexed(h, m, m.ptes[p].pfn))
    && (forall b, d :: 0 <= b < |m.table| && d in m.table[b] ==> Backed(h, m, pages, d))
    && (forall p, q :: p in pages && q in pages && ContentOf(m, p) == ContentOf(m, q) ==>
          m.ptes[p].pfn == m.ptes[q].pfn)
  }

  /** The page is hashed and looked up; every other slot of a walk is refused. */
  predicate Accepts(m: Machine, s: Slot) {
    m.running && Acceptable(m, s.page) && s.memory
  }

  /** And `replace_page` finds its entry. */
  predicate Replaceable(m: Machine, s: Slot) {
    Accepts(m, s) && s.located == Some(s.page.vaddr)
  }

  /** A page accepted for the first time can be replaced, and accepted pages are neither unmapped nor written. */
  ghost predicate Cooperative(m: Machine, pages: set<VPage>, e: Event) {
    match e
    case Advertise(s) => Accepts(m, s) && s.page !in pages ==> Replaceable(m, s)
    case Unmap(p) => p !in pages
    case Write(p, _) => Present(m, p) ==> forall q :: q in pages && Present(m, q) ==> m.ptes[q].pfn != m.ptes[p].pfn
    case _ => true
  }

  /** The pages accepted since the merger was last stopped. */
  function Grow(m: Machine, pages: set<VPage>, e: Event): set<VPage> {
    match e
    case Advertise(s) => if Accepts(m, s) then pages + {s.page} else pages
    case SetRun(on) => if m.running && !on then {} else pages
    case _ => pages
  }

  /** Anything that keeps the table, the advertised entries and the content of their frames keeps sharing. */
  lemma SharingFrame(h: Hash, m: Machine, r: Machine, pages: set<VPage>)
    requires WellFormed(m) && WellFormed(r) && Sharing(h, m, pages) && r.table == m.table
    requires forall p :: p in pages ==> Present(r, p) && r.ptes[p].pfn == m.ptes[p].pfn
    requires forall p :: p in pages ==> ContentOf(r, p) == ContentOf(m, p)
    ensures Sharing(h, r, pages)
  {
    forall b, d | 0 <= b < |r.table| && d in r.table[b]
      ensures Backed(h, r, pages, d)
    {
      assert Backed(h, m, pages, d);
      var p :| p in pages && Present(m, p) && m.ptes[p].pfn == d.pfn;
    }
    forall p | p in pages
      ensures Indexed(h, r, r.ptes[p].pfn)
    {
      assert Indexed(h, m, m.ptes[p].pfn);
    }
  }

  lemma EnvironmentKeepsSharing(h: Hash, m: Machine, pages: set<VPage>, e: Event)
    requires WellFormed(m) && WellFormed(Apply(h, m, e))
    requires Sharing(h, m, pages) && Cooperative(m, pages, e) && !e.Advertise? && !e.SetRun?
    ensures Sharing(h, Apply(h, m, e), pages)
  {
    var r := Apply(h, m, e);
    assert r.table == m.table;
    assert forall p :: p in pages ==> Present(m, p) && Present(r, p) && r.ptes[p].pfn == m.ptes[p].pfn;
    hide Sharing, Visit;
    forall p | p in pages
      ensures ContentOf(r, p) == ContentOf(m, p)
    {
      assert Live(m.frames, m.ptes[p].pfn);
    }
    SharingFrame(h, m, r, pages);
  }

  /** In a sharing state nothing tracked is stale. */
  lemma NothingStale(h: Hash, m: Machine, pages: set<VPage>, b: BucketIndex, d: Descriptor)
    requires WellFormed(m) && Sharing(h, m, pages) && d in m.table[b]
    ensures !Stale(h, m.frames, d.checksum, d) && Live(m.frames, d.pfn)
  {
    assert Backed(h, m, pages, d);
  }

  /** No twin was found, so no advertised page had the same content. */
  lemma TrackingKeepsSharing(h: Hash, m: Machine, pages: set<VPage>, s: Slot)
    requires WellFormed(m) && WellFormed(Visit(h, m, s)) && Sharing(h, m, pages) && Replaceable(m, s)
    requires Merging(h, m, s).None?
    ensures Sharing(h, Visit(h, m, s), pages + {s.page})
  {
    hide Visit, Stale;
    var r := Visit(h, m, s);
    VisitShape(h, m, s);
    var f := m.ptes[s.page].pfn;
    var content := m.frames[f].content;
    var added := Fresh(h, m, s);
    forall b, d | 0 <= b < |r.table| && d in r.table[b]
      ensures Backed(h, r, pages + {s.page}, d)
    {
      VisitTable(h, m, s, b, d);
      if d in m.table[b] {
        assert Backed(h, m, pages, d);
      } else {
        assert s.page in pages + {s.page} && Present(r, s.page) && r.ptes[s.page].pfn == d.pfn;
      }
    }
    forall p | p in pages + {s.page}
      ensures Present(r, p) && Indexed(h, r, r.ptes[p].pfn)
    {
      var d :| (p in pages ==> d in m.table[h.bucket(h.xxhash(ContentOf(m, p)))]
                               && d.pfn == m.ptes[p].pfn && d.checksum == h.xxhash(ContentOf(m, p)))
            && (p !in pages ==> d == added);
      if p in pages { NothingStale(h, m, pages, h.bucket(d.checksum), d); }
      VisitTable(h, m, s, h.bucket(d.checksum), d);
    }
    forall q | q in pages
      ensures ContentOf(m, q) != content
    {
      assert Indexed(h, m, m.ptes[q].pfn);
      assert Live(m.frames, m.ptes[q].pfn);
    }
  }

  /** A twin was found: it is the frame every advertised page of that content already maps. */
  lemma TwinIsShared(h: Hash, m: Machine, pages: set<VPage>, s: Slot) returns (twin: Descriptor)
    requires WellFormed(m) && Sharing(h, m, pages) && Replaceable(m, s) && Merging(h, m, s).Some?
    ensures
      var content := ContentOf(m, s.page);
      && Merging(h, m, s).value == (s.page, twin.pfn)
      && twin.checksum == h.xxhash(content) && twin in m.table[h.bucket(twin.checksum)]
      && twin.pfn in m.frames && m.frames[twin.pfn].content == content
      && forall p :: p in pages && ContentOf(m, p) == content ==> m.ptes[p].pfn == twin.pfn
  {
    var content := ContentOf(m, s.page);
    twin := m.table[h.bucket(h.xxhash(content))][Stop(h, m, s, content)];
    assert twin in m.table[h.bucket(h.xxhash(content))];
    assert Backed(h, m, pages, twin);
    var w :| w in pages && Present(m, w) && m.ptes[w].pfn == twin.pfn;
    assert ContentOf(m, w) == content;
  }

  /** After the merge every page reads as before and advertised pages kept their frames. */
  lemma MergingMovesOnlyNewPage(h: Hash, m: Machine, pages: set<VPage>, s: Slot, twin: Descriptor)
    requires WellFormed(m) && WellFormed(Visit(h, m, s)) && Sharing(h, m, pages)
    requires Merging(h, m, s) == Some((s.page, twin.pfn)) && Present(m, s.page)
    requires forall p :: p in pages && ContentOf(m, p) == ContentOf(m, s.page) ==> m.ptes[p].pfn == twin.pfn
    ensures
      var r := Visit(h, m, s);
      && r.frames.Keys == m.frames.Keys && (forall f :: f in m.frames ==> r.frames[f].content == m.frames[f].content)
      && Present(r, s.page) && r.ptes[s.page].pfn == twin.pfn && ContentOf(r, s.page) == ContentOf(m, s.page)
      && forall p :: p in pages ==>
           Present(r, p) && r.ptes[p].pfn == m.ptes[p].pfn && ContentOf(r, p) == ContentOf(m, p)
  {
    VisitShape(h, m, s);
    MoveKeepsContent(m, Visit(h, m, s), s.page, twin.pfn, s.prot);
  }

  lemma MergingKeepsSharing(h: Hash, m: Machine, pages: set<VPage>, s: Slot)
    requires WellFormed(m) && WellFormed(Visit(h, m, s)) && Sharing(h, m, pages) && Replaceable(m, s)
    requires Merging(h, m, s).Some?
    ensures Sharing(h, Visit(h, m, s), pages + {s.page})
  {
    hide Visit, Stale, Merging;
    var r := Visit(h, m, s);
    var twin := TwinIsShared(h, m, pages, s);
    MergingMovesOnlyNewPage(h, m, pages, s, twin);
    forall b, d | 0 <= b < |r.table| && d in r.table[b]
      ensures Backed(h, r, pages + {s.page}, d)
    {
      VisitTable(h, m, s, b, d);
      assert Backed(h, m, pages, d);
      var p :| p in pages && Present(m, p) && m.ptes[p].pfn == d.pfn;
      assert p in pages + {s.page};
    }
    forall p | p in pages + {s.page}
      ensures Present(r, p) && Indexed(h, r, r.ptes[p].pfn)
    {
      var d := twin;
      if p in pages {
        assert Indexed(h, m, m.ptes[p].pfn);
        d :| d in m.table[h.bucket(h.xxhash(ContentOf(m, p)))] && d.pfn == m.ptes[p].pfn
          && d.checksum == h.xxhash(ContentOf(m, p));
      }
      NothingStale(h, m, pages, h.bucket(d.checksum), d);
      VisitTable(h, m, s, h.bucket(d.checksum), d);
    }
  }

  /** Offered again, a page stays on its frame whatever address is located: the twin found is the frame it maps. */
  lemma AgainStaysPut(h: Hash, m: Machine, pages: set<VPage>, s: Slot, p: VPage)
    requires WellFormed(m) && WellFormed(Visit(h, m, s)) && Sharing(h, m, pages) && s.page in pages && p in pages
    ensures
      var r := Visit(h, m, s);
      Present(m, p) && Present(r, p) && r.ptes[p].pfn == m.ptes[p].pfn && ContentOf(r, p) == ContentOf(m, p)
  {
    hide Visit, Indexed;
    VisitShape(h, m, s);
    if Merging(h, m, s).Some? {
      var (q, k) := Merging(h, m, s).value;
      OwnTwin(h, m, pages, s);
      MoveKeepsContent(m, Visit(h, m, s), q, k, s.prot);
    }
  }

  lemma OwnTwin(h: Hash, m: Machine, pages: set<VPage>, s: Slot)
    requires WellFormed(m) && Sharing(h, m, pages) && s.page in pages && Merging(h, m, s).Some?
    ensures
      var (q, k) := Merging(h, m, s).value;
      q in m.ptes && m.ptes[q] == m.ptes[s.page] && k == m.ptes[s.page].pfn
  {
    hide Indexed;
    var content := ContentOf(m, s.page);
    var twin := m.table[h.bucket(h.xxhash(content))][Stop(h, m, s, content)];
    assert twin in m.table[h.bucket(h.xxhash(content))];
    assert Backed(h, m, pages, twin);
    var w :| w in pages && Present(m, w) && m.ptes[w].pfn == twin.pfn;
    assert ContentOf(m, w) == content;
  }

  /** A page accepted before can be offered again, found or not. */
  lemma AgainKeepsSharing(h: Hash, m: Machine, pages: set<VPage>, s: Slot)
    requires WellFormed(m) && WellFormed(Visit(h, m, s)) && Sharing(h, m, pages)
    requires Accepts(m, s) && s.page in pages
    ensures Sharing(h, Visit(h, m, s), pages)
  {
    hide Visit, Merging, Stale;
    var r := Visit(h, m, s);
    VisitKeepsContents(h, m, s);
    forall p | p in pages
      ensures Present(m, p) && Present(r, p) && r.ptes[p].pfn == m.ptes[p].pfn && ContentOf(r, p) == ContentOf(m, p)
    {
      AgainStaysPut(h, m, pages, s, p);
    }
    forall b, d | 0 <= b < |r.table| && d in r.table[b]
      ensures Backed(h, r, pages, d)
    {
      VisitTable(h, m, s, b, d);
      if d in m.table[b] {
        assert Backed(h, m, pages, d);
        var p :| p in pages && Present(m, p) && m.ptes[p].pfn == d.pfn;
        assert Present(r, p);
      } else {
        assert Present(r, s.page);
      }
    }
    forall p | p in pages
      ensures Indexed(h, r, r.ptes[p].pfn)
    {
      assert Indexed(h, m, m.ptes[p].pfn);
      var d :| d in m.table[h.bucket(h.xxhash(ContentOf(m, p)))] && d.pfn == m.ptes[p].pfn
               && d.checksum == h.xxhash(ContentOf(m, p));
      NothingStale(h, m, pages, h.bucket(d.checksum), d);
      VisitTable(h, m, s, h.bucket(d.checksum), d);
    }
  }

  lemma VisitKeepsContents(h: Hash, m: Machine, s: Slot)
    requires WellFormed(m)
    ensures Visit(h, m, s).frames.Keys == m.frames.Keys && |Visit(h, m, s).table| == BUCKETS
    ensures forall f :: f in m.frames ==> Visit(h, m, s).frames[f].content == m.frames[f].content
  {
    hide Visit, Merging;
    VisitShape(h, m, s);
    match Merging(h, m, s)
    case None =>
    case Some((q, k)) => MoveKeepsContent(m, Visit(h, m, s), q, k, s.prot);
  }

  /** A refused slot, and one offered while the merger is stopped, changes nothing that matters. */
  lemma RefusedKeepsSharing(h: Hash, m: Machine, pages: set<VPage>, s: Slot)
    requires WellFormed(m) && Sharing(h, m, pages) && !Accepts(m, s)
    ensures WellFormed(Apply(h, m, Advertise(s))) && Sharing(h, Apply(h, m, Advertise(s)), pages)
  {
    var r := Apply(h, m, Advertise(s));
    assert r.table == m.table && r.ptes == m.ptes && r.frames == m.frames;
    SharingFrame(h, m, r, pages);
  }

  /** Stopping forgets every page along with the table. */
  lemma SwitchKeepsSharing(h: Hash, m: Machine, pages: set<VPage>, on: bool)
    requires WellFormed(m) && Sharing(h, m, pages)
    ensures WellFormed(Apply(h, m, SetRun(on)))
    ensures Sharing(h, Apply(h, m, SetRun(on)), Grow(m, pages, SetRun(on)))
  {
    var r := Apply(h, m, SetRun(on));
    if !(m.running && !on) {
      SharingFrame(h, m, r, pages);
    }
  }

  lemma StepKeepsSharing(h: Hash, m: Machine, pages: set<VPage>, e: Event)
    requires Inv(m) && Sharing(h, m, pages) && Cooperative(m, pages, e)
    ensures Inv(Apply(h, m, e)) && Sharing(h, Apply(h, m, e), Grow(m, pages, e))
  {
    hide Visit, Merging, Sharing, WellFormed, Conserved, Acceptable;
    StepKeepsInv(h, m, e);
    if e.SetRun? {
      SwitchKeepsSharing(h, m, pages, e.on);
    } else if !e.Advertise? {
      EnvironmentKeepsSharing(h, m, pages, e);
    } else if !Accepts(m, e.slot) {
      RefusedKeepsSharing(h, m, pages, e.slot);
    } else if e.slot.page in pages {
      AgainKeepsSharing(h, m, pages, e.slot);
      assert pages + {e.slot.page} == pages;
    } else if Merging(h, m, e.slot).None? {
      TrackingKeepsSharing(h, m, pages, e.slot);
    } else {
      MergingKeepsSharing(h, m, pages, e.slot);
    }
  }

  ghost predicate CooperativeRun(h: Hash, m: Machine, pages: set<VPage>, es: seq<Event>)
    requires Inv(m)
    decreases |es|
  {
    StepKeepsInv(h, m, if es == [] then Pin(0) else es[0]);
    es == [] ||
    (Cooperative(m, pages, es[0]) && CooperativeRun(h, Apply(h, m, es[0]), Grow(m, pages, es[0]), es[1..]))
  }

  /** The pages accepted along a run, since the last stop. */
  function Accepted(h: Hash, m: Machine, pages: set<VPage>, es: seq<Event>): set<VPage>
    requires Inv(m)
    decreases |es|
  {
    StepKeepsInv(h, m, if es == [] then Pin(0) else es[0]);
    if es == [] then pages else Accepted(h, Apply(h, m, es[0]), Grow(m, pages, es[0]), es[1..])
  }

  lemma {:induction false} RunKeepsSharing(h: Hash, m: Machine, pages: set<VPage>, es: seq<Event>)
    requires Inv(m) && Sharing(h, m, pages) && CooperativeRun(h, m, pages, es)
    ensures Sharing(h, Run(h, m, es), Accepted(h, m, pages, es))
    decreases |es|
  {
    hide Apply, Sharing, WellFormed, Conserved, Cooperative, Grow;
    if es != [] {
      StepKeepsSharing(h, m, pages, es[0]);
      RunKeepsSharing(h, Apply(h, m, es[0]), Grow(m, pages, es[0]), es[1..]);
    }
  }

  ghost predicate AllPresent(m: Machine, pages: set<VPage>) {
    forall p :: p in pages ==> Present(m, p)
  }

  function FramesOf(m: Machine, pages: set<VPage>): set<Pfn>
    requires AllPresent(m, pages)
  {
    set p | p in pages :: m.ptes[p].pfn
  }

  function ContentsOf(m: Machine, pages: set<VPage>): set<Content>
    requires WellFormed(m) && AllPresent(m, pages)
  {
    set p | p in pages :: ContentOf(m, p)
  }

  ghost function ImageOf<T(!new), A>(s: set<T>, f: T -> A): set<A> {
    set p | p in s :: f(p)
  }

  lemma ImageWithout<T(!new), A>(s: set<T>, f: T -> A, p: T)
    requires p in s
    ensures ImageOf(s, f) == ImageOf(s - {p}, f) + {f(p)}
    ensures f(p) in ImageOf(s - {p}, f) <==> exists q :: q in s && q != p && f(q) == f(p)
  {
    var rest := s - {p};
    if f(p) in ImageOf(rest, f) {
      var q :| q in rest && f(q) == f(p);
      assert q in s && q != p;
    }
  }

  lemma WithMember<T>(s: set<T>, x: T)
    ensures |s + {x}| == if x in s then |s| else |s| + 1
  {
    assert x in s ==> s + {x} == s;
  }

  /** Two labels that tell the same elements apart take equally many values. */
  lemma {:induction false} EquallyMany<T(!new), A, B>(s: set<T>, f: T -> A, g: T -> B)
    requires forall p, q :: p in s && q in s ==> (f(p) == f(q) <==> g(p) == g(q))
    ensures |ImageOf(s, f)| == |ImageOf(s, g)|
    decreases |s|
  {
    if s != {} {
      var p :| p in s;
      EquallyMany(s - {p}, f, g);
      ImageWithout(s, f, p);
      ImageWithout(s, g, p);
      WithMember(ImageOf(s - {p}, f), f(p));
      WithMember(ImageOf(s - {p}, g), g(p));
      assert f(p) in ImageOf(s - {p}, f) <==> g(p) in ImageOf(s - {p}, g);
    }
  }

  lemma OneFramePerContent(m: Machine, pages: set<VPage>)
    requires WellFormed(m) && AllPresent(m, pages)
    requires forall p, q :: p in pages && q in pages && ContentOf(m, p) == ContentOf(m, q) ==>
      m.ptes[p].pfn == m.ptes[q].pfn
    ensures |FramesOf(m, pages)| == |ContentsOf(m, pages)|
  {
    var f := (p: VPage) => if Present(m, p) then m.ptes[p].pfn else 0;
    var g := (p: VPage) => if Present(m, p) then ContentOf(m, p) else [];
    EquallyMany(pages, f, g);
    assert FramesOf(m, pages) == ImageOf(pages, f);
    assert ContentsOf(m, pages) == ImageOf(pages, g);
  }

  /**
    Optimal sharing: starting with an empty table, after any cooperative run, whatever slots were refused and however
    often the merger was stopped, all pages accepted since the last stop that have equal content map one frame, so the
    frames in use are as many as the distinct contents.
   */
  lemma OptimalSharing(h: Hash, m: Machine, es: seq<Event>)
    requires Inv(m) && (forall b :: 0 <= b < |m.table| ==> m.table[b] == []) && CooperativeRun(h, m, {}, es)
    ensures
      var r, pages := Run(h, m, es), Accepted(h, m, {}, es);
      && AllPresent(r, pages)
      && (forall p, q :: p in pages && q in pages ==>
            (ContentOf(r, p) == ContentOf(r, q) <==> r.ptes[p].pfn == r.ptes[q].pfn))
      && |FramesOf(r, pages)| == |ContentsOf(r, pages)|
  {
    RunKeepsSharing(h, m, {}, es);
    var r, pages := Run(h, m, es), Accepted(h, m, {}, es);
    assert AllPresent(r, pages);
    OneFramePerContent(r, pages);
  }
}
