/** One visit told in the fields of entries, frames and descriptors: which pages it takes, what it moves and keeps. */
module DksmExact {
  import opened Common
  import opened DksmModel
  import opened DksmVisit

  // ---------- Which pages are taken ----------

  /** A present user page of an ordinary anonymous frame. */
  predicate Ordinary(m: Machine, p: VPage) {
    && p in m.ptes && m.ptes[p].present && m.ptes[p].prot.user
    && m.ptes[p].pfn in m.frames && m.frames[m.ptes[p].pfn].anon && !m.frames[m.ptes[p].pfn].huge
  }

  /** The entry that a merge would rewrite is located and equals the one visited. */
  predicate Reachable(m: Machine, s: Slot) {
    && s.located.Some? && s.page in m.ptes
    && var q := VPage(s.page.mm, s.located.value);
    q in m.ptes && m.ptes[q].pfn == m.ptes[s.page].pfn && m.ptes[q].present == m.ptes[s.page].present
    && m.ptes[q].prot == m.ptes[s.page].prot
  }

  /** A descriptor of a frame in use that holds `content` and was tracked under its checksum. */
  predicate Same(h: Hash, m: Machine, content: Content, d: Descriptor) {
    && d.checksum == h.xxhash(content)
    && d.pfn in m.frames && m.frames[d.pfn].refs != 0 && m.frames[d.pfn].content == content
  }

  /** A descriptor under the checksum of `content` whose frame was freed or no longer has that checksum. */
  predicate Outdated(h: Hash, m: Machine, content: Content, d: Descriptor) {
    && d.checksum == h.xxhash(content)
    && (d.pfn !in m.frames || m.frames[d.pfn].refs == 0 || h.xxhash(m.frames[d.pfn].content) != h.xxhash(content))
  }

  /** A page that is absent, not user, not anonymous or huge, or that gets no descriptor, only counts as failed. */
  lemma RefusedVisit(h: Hash, m: Machine, s: Slot)
    requires WellFormed(m)
    ensures
      || s.page !in m.ptes || !m.ptes[s.page].present || !m.ptes[s.page].prot.user
      || !m.frames[m.ptes[s.page].pfn].anon || m.frames[m.ptes[s.page].pfn].huge || !s.memory
      ==> !(Ordinary(m, s.page) && s.memory) && Visit(h, m, s) == m.(failed := m.failed + 1)
  {
  }

  /** Exactly the present user pages of small anonymous frames are hashed, if there is memory for a descriptor. */
  lemma HashedExactly(h: Hash, m: Machine, s: Slot)
    requires WellFormed(m)
    ensures Visit(h, m, s).scanned == m.scanned + if Ordinary(m, s.page) && s.memory then 1 else 0
  {
  }

  /** Whatever address is located, an entry that is not user or whose frame is huge or not anonymous stays. */
  lemma OthersStay(h: Hash, m: Machine, s: Slot, p: VPage)
    requires WellFormed(m) && p in m.ptes
    ensures p in Visit(h, m, s).ptes
    ensures
      || !m.ptes[p].present || !m.ptes[p].prot.user
      || !m.frames[m.ptes[p].pfn].anon || m.frames[m.ptes[p].pfn].huge
      ==> Visit(h, m, s).ptes[p] == m.ptes[p]
  {
    VisitShape(h, m, s);
  }

  // ---------- What is moved ----------

  /** All of that at once. */
  lemma StaysPut(h: Hash, m: Machine, s: Slot)
    requires WellFormed(m)
    ensures
      var r := Visit(h, m, s);
      && (!Ordinary(m, s.page) || !s.memory ==> r == m.(failed := m.failed + 1))
      && r.ptes.Keys == m.ptes.Keys
      && forall p :: p in m.ptes && !Ordinary(m, p) ==> r.ptes[p] == m.ptes[p]
  {
    VisitShape(h, m, s);
    forall p | p in m.ptes
      ensures p in Visit(h, m, s).ptes && (!Ordinary(m, p) ==> Visit(h, m, s).ptes[p] == m.ptes[p])
    {
      OthersStay(h, m, s, p);
    }
  }

  /** The visit takes the page, may rewrite an entry, and a descriptor of its bucket has the same content. */
  ghost predicate Merges(h: Hash, m: Machine, s: Slot)
    requires |m.table| == BUCKETS
  {
    && s.memory && Ordinary(m, s.page) && Reachable(m, s)
    && var content := m.frames[m.ptes[s.page].pfn].content;
    exists d :: d in m.table[h.bucket(h.xxhash(content))] && Same(h, m, content, d)
  }

  /** A merge goes to the first descriptor of equal content, and happens exactly when there is one to go to. */
  lemma MergesExactly(h: Hash, m: Machine, s: Slot)
    requires WellFormed(m)
    ensures
      var r := Visit(h, m, s);
      && r.merged == m.merged + (if Merges(h, m, s) then 1 else 0)
      && (!Merges(h, m, s) ==> r.ptes == m.ptes && r.frames == m.frames)
      && (Merges(h, m, s) ==>
            var f, q := m.ptes[s.page].pfn, VPage(s.page.mm, s.located.value);
            var content := m.frames[f].content;
            var ds := m.table[h.bucket(h.xxhash(content))];
            exists i :: 0 <= i < |ds| && Same(h, m, content, ds[i])
              && (forall j :: 0 <= j < i ==> !Same(h, m, content, ds[j]))
              && Moved(m, r, q, f, ds[i].pfn, s.prot))
  {
    VisitShape(h, m, s);
    if Ordinary(m, s.page) && s.memory {
      var f := m.ptes[s.page].pfn;
      var content := m.frames[f].content;
      var ds := m.table[h.bucket(h.xxhash(content))];
      assert Acceptable(m, s.page);
      assert Site(m.ptes, s).Some? <==> Reachable(m, s);
      SameIsTwin(h, m, content);
      var k := FirstTwin(h, m.frames, content, ds);
      if Merges(h, m, s) {
        assert k < |ds|;
        MovedShape(m, Visit(h, m, s), VPage(s.page.mm, s.located.value), ds[k].pfn, s.prot);
      } else {
        assert Merging(h, m, s).None?;
      }
    }
  }

  /** Entry `q` points at `k` instead of `f`, and one reference went from `f` to `k`; nothing else differs. */
  ghost predicate Moved(m: Machine, r: Machine, q: VPage, f: Pfn, k: Pfn, prot: Prot) {
    && r.ptes == m.ptes[q := Pte(k, true, prot)]
    && r.frames.Keys == m.frames.Keys
    && forall g :: g in m.frames ==>
         && r.frames[g].content == m.frames[g].content
         && r.frames[g].anon == m.frames[g].anon && r.frames[g].huge == m.frames[g].huge
         && r.frames[g].refs == m.frames[g].refs + (if g == k then 1 else 0) - (if g == f then 1 else 0)
  }

  lemma SameIsTwin(h: Hash, m: Machine, content: Content)
    ensures forall d :: Same(h, m, content, d) <==> Twin(h, m.frames, content, d)
  {
  }

  lemma MovedShape(m: Machine, r: Machine, q: VPage, k: Pfn, prot: Prot)
    requires MovedTo(m, r, q, k, prot)
    ensures Moved(m, r, q, m.ptes[q].pfn, k, prot)
  {
  }

  // ---------- What is kept ----------

  lemma OutdatedIsStale(h: Hash, m: Machine, content: Content, d: Descriptor)
    ensures Stale(h, m.frames, h.xxhash(content), d) <==> Outdated(h, m, content, d)
  {
  }

  lemma {:induction false} PurgeAppend(h: Hash, frames: map<Pfn, Frame>, c: Checksum, a: seq<Descriptor>,
      b: seq<Descriptor>)
    ensures Purge(h, frames, c, a + b) == Purge(h, frames, c, a) + Purge(h, frames, c, b)
  {
    if a == [] {
      assert a + b == b;
    } else {
      assert (a + b)[1..] == a[1..] + b;
      PurgeAppend(h, frames, c, a[1..], b);
    }
  }

  /** Purging takes out the outdated descriptors and nothing else, and leaves the others in their order. */
  lemma PurgeExactly(h: Hash, m: Machine, content: Content, a: seq<Descriptor>, d: Descriptor,
      b: seq<Descriptor>)
    ensures
      var c := h.xxhash(content);
      Purge(h, m.frames, c, a + [d] + b)
      == Purge(h, m.frames, c, a) + (if Outdated(h, m, content, d) then [] else [d]) + Purge(h, m.frames, c, b)
  {
    hide Purge, Stale, Outdated;
    OutdatedIsStale(h, m, content, d);
    PurgeSnoc(h, m.frames, h.xxhash(content), a, d);
    PurgeAppend(h, m.frames, h.xxhash(content), a + [d], b);
  }

  /** The positions of a bucket that hold a descriptor of the same content. */
  ghost function SameAt(h: Hash, m: Machine, content: Content, ds: seq<Descriptor>): set<nat> {
    set i: nat | i < |ds| && Same(h, m, content, ds[i])
  }

  lemma {:induction false} TwinsCounted(h: Hash, m: Machine, content: Content, ds: seq<Descriptor>)
    ensures Twins(h, m.frames, content, ds) == |SameAt(h, m, content, ds)|
  {
    if ds == [] {
      assert SameAt(h, m, content, ds) == {};
    } else {
      var front, last := ds[..|ds| - 1], ds[|ds| - 1];
      TwinsCounted(h, m, content, front);
      assert ds == front + [last];
      TwinsSnoc(h, m.frames, content, front, last);
      assert SameAt(h, m, content, ds)
          == SameAt(h, m, content, front) + if Same(h, m, content, last) then {|front|} else {};
    }
  }

  /** The same in terms of where the scan stops. */
  lemma LeftByScan(h: Hash, m: Machine, s: Slot)
    requires WellFormed(m) && Acceptable(m, s.page) && s.memory
    ensures
      var r, f := Visit(h, m, s), m.ptes[s.page].pfn;
      var content := m.frames[f].content;
      var c := h.xxhash(content);
      var b, k := h.bucket(c), Stop(h, m, s, content);
      var left := Partial(h, m.frames, c, m.table[b], k);
      && r.failed == m.failed + Twins(h, m.frames, content, m.table[b][..k])
      && r.table == m.table[b := if k < |m.table[b]| then left else [Descriptor(c, f, s.page.vaddr)] + left]
  {
    hide Twins, Purge, FirstTwin;
    var content := m.frames[m.ptes[s.page].pfn].content;
    var m1 := m.(scanned := m.scanned + 1);
    assert Stop(h, m, s, content) == Stop(h, m1, s, content);
  }

  /** Without a merge the whole bucket is examined. */
  lemma NoneSame(h: Hash, m: Machine, s: Slot)
    requires WellFormed(m) && Ordinary(m, s.page) && s.memory && !Merges(h, m, s)
    ensures
      var content := m.frames[m.ptes[s.page].pfn].content;
      var ds := m.table[h.bucket(h.xxhash(content))];
      && Stop(h, m, s, content) == |ds| && ds[..|ds|] == ds
      && Partial(h, m.frames, h.xxhash(content), ds, |ds|) == Purge(h, m.frames, h.xxhash(content), ds)
  {
    var content := m.frames[m.ptes[s.page].pfn].content;
    var ds := m.table[h.bucket(h.xxhash(content))];
    SameIsTwin(h, m, content);
    assert Site(m.ptes, s).Some? <==> Reachable(m, s);
    assert ds[..|ds|] == ds && ds[|ds|..] == [];
  }

  /** What a visit that takes the page leaves in the table, and how often it counts a failed replacement. */
  lemma TableExactly(h: Hash, m: Machine, s: Slot)
    requires WellFormed(m) && Ordinary(m, s.page) && s.memory
    ensures
      var r, f := Visit(h, m, s), m.ptes[s.page].pfn;
      var content := m.frames[f].content;
      var c := h.xxhash(content);
      var b := h.bucket(c);
      var ds := m.table[b];
      && (!Merges(h, m, s) ==>
            && r.table == m.table[b := [Descriptor(c, f, s.page.vaddr)] + Purge(h, m.frames, c, ds)]
            && r.failed == m.failed + |SameAt(h, m, content, ds)|)
      && (Merges(h, m, s) ==>
            && r.failed == m.failed
            && exists i :: 0 <= i < |ds| && Same(h, m, content, ds[i])
                 && (forall j :: 0 <= j < i ==> !Same(h, m, content, ds[j]))
                 && r.table == m.table[b := Purge(h, m.frames, c, ds[..i]) + ds[i..]])
  {
    hide Visit, Purge, Twins, Same;
    LeftByScan(h, m, s);
    var content := m.frames[m.ptes[s.page].pfn].content;
    var ds := m.table[h.bucket(h.xxhash(content))];
    var k := Stop(h, m, s, content);
    SameIsTwin(h, m, content);
    TwinsCounted(h, m, content, ds[..k]);
    assert Site(m.ptes, s).Some? <==> Reachable(m, s);
    if Merges(h, m, s) {
      assert SameAt(h, m, content, ds[..k]) == {};
    } else {
      NoneSame(h, m, s);
    }
  }
}
