/**
  State of the daemonless same-page merger: physical frames with reference counts,
  page table entries of many processes, and the hash table of descriptors.
  A descriptor holds no reference on its frame, so it may outlive it.

  `Visit` says what one page-walk callback does to that state; `DksmEngine` proves
  the loop of the callback equal to it.
 */
module DksmModel {
  import opened Common

  type Content = seq<byte>
  type Checksum = x: nat | x < TWO_32
  type BucketIndex = x: nat | x < BUCKETS
  const BUCKETS: nat := 4096

  /** The page checksum and the bucket hash; every result holds for any choice of both. */
  datatype Hash = Hash(xxhash: Content -> Checksum, bucket: Checksum -> BucketIndex)

  type Pfn = nat
  datatype VPage = VPage(mm: nat, vaddr: nat)
  datatype Prot = Prot(user: bool, writable: bool)
  datatype Pte = Pte(pfn: Pfn, present: bool, prot: Prot)
  datatype Frame = Frame(content: Content, refs: nat, anon: bool, huge: bool)
  datatype Descriptor = Descriptor(checksum: Checksum, pfn: Pfn, vaddr: nat)

  datatype Machine = Machine(
    frames: map<Pfn, Frame>,
    ptes: map<VPage, Pte>,
    pins: map<Pfn, nat>,
    table: seq<seq<Descriptor>>,
    scanned: nat, merged: nat, failed: nat, size: int,
    running: bool)

  /**
    One page-table slot handed to the walk callback. `located` is the address that
    `replace_page` derives from the page and the area, when it finds one that has a
    page table; `memory` tells whether the descriptor allocation succeeds.
   */
  datatype Slot = Slot(page: VPage, prot: Prot, located: Option<nat>, memory: bool)

  // ---------- Well-formedness and reference conservation ----------

  function Mappers(ptes: map<VPage, Pte>, pfn: Pfn): set<VPage> {
    set p | p in ptes && ptes[p].present && ptes[p].pfn == pfn
  }

  function Pins(m: Machine, pfn: Pfn): nat {
    if pfn in m.pins then m.pins[pfn] else 0
  }

  predicate Live(frames: map<Pfn, Frame>, pfn: Pfn) {
    pfn in frames && frames[pfn].refs > 0
  }

  /** Every present entry points at a live frame and the table has its fixed number of buckets. */
  ghost predicate WellFormed(m: Machine) {
    && |m.table| == BUCKETS
    && (forall p :: p in m.ptes && m.ptes[p].present ==> Live(m.frames, m.ptes[p].pfn))
  }

  /** The reference count of a frame is its number of mappings plus the outside pins. */
  ghost predicate Conserved(m: Machine) {
    forall f :: f in m.frames ==> m.frames[f].refs == |Mappers(m.ptes, f)| + Pins(m, f)
  }

  /** What every process reads: the content behind each present entry. */
  function Reads(m: Machine): map<VPage, Content>
    requires WellFormed(m)
  {
    map p | p in m.ptes && m.ptes[p].present :: m.frames[m.ptes[p].pfn].content
  }

  lemma MappersAfterUpdate(ptes: map<VPage, Pte>, p: VPage, pte: Pte, f: Pfn)
    requires p in ptes && ptes[p].present && pte.present
    ensures |Mappers(ptes[p := pte], f)|
         == |Mappers(ptes, f)| - (if ptes[p].pfn == f then 1 else 0) + (if pte.pfn == f then 1 else 0)
  {
    var before, after := Mappers(ptes, f), Mappers(ptes[p := pte], f);
    var others := before - {p};
    assert before == if ptes[p].pfn == f then others + {p} else others;
    assert after == if pte.pfn == f then others + {p} else others;
  }

  // ---------- Scanning one bucket ----------

  /** A descriptor with the right checksum whose frame was freed or changed since. */
  predicate Stale(h: Hash, frames: map<Pfn, Frame>, c: Checksum, d: Descriptor) {
    d.checksum == c && !(Live(frames, d.pfn) && h.xxhash(frames[d.pfn].content) == c)
  }

  /** A descriptor whose frame is live and holds exactly `content`. */
  predicate Twin(h: Hash, frames: map<Pfn, Frame>, content: Content, d: Descriptor) {
    d.checksum == h.xxhash(content) && Live(frames, d.pfn) && frames[d.pfn].content == content
  }

  function Purge(h: Hash, frames: map<Pfn, Frame>, c: Checksum, ds: seq<Descriptor>): seq<Descriptor> {
    if ds == [] then []
    else (if Stale(h, frames, c, ds[0]) then [] else [ds[0]]) + Purge(h, frames, c, ds[1..])
  }

  /** Index of the first twin, or the length of the bucket. */
  function FirstTwin(h: Hash, frames: map<Pfn, Frame>, content: Content, ds: seq<Descriptor>): (k: nat)
    ensures k <= |ds|
    ensures k < |ds| ==> Twin(h, frames, content, ds[k])
    ensures forall i :: 0 <= i < k ==> !Twin(h, frames, content, ds[i])
  {
    if ds == [] || Twin(h, frames, content, ds[0]) then 0
    else 1 + FirstTwin(h, frames, content, ds[1..])
  }

  function Twins(h: Hash, frames: map<Pfn, Frame>, content: Content, ds: seq<Descriptor>): nat {
    if ds == [] then 0
    else (if Twin(h, frames, content, ds[0]) then 1 else 0) + Twins(h, frames, content, ds[1..])
  }

  lemma {:induction false} PurgeSnoc(h: Hash, frames: map<Pfn, Frame>, c: Checksum, ds: seq<Descriptor>, d: Descriptor)
    ensures Purge(h, frames, c, ds + [d])
         == Purge(h, frames, c, ds) + (if Stale(h, frames, c, d) then [] else [d])
  {
    if ds == [] {
      assert ds + [d] == [d];
    } else {
      assert (ds + [d])[1..] == ds[1..] + [d];
      PurgeSnoc(h, frames, c, ds[1..], d);
    }
  }

  lemma {:induction false} TwinsSnoc(h: Hash, frames: map<Pfn, Frame>, content: Content, ds: seq<Descriptor>,
      d: Descriptor)
    ensures Twins(h, frames, content, ds + [d])
         == Twins(h, frames, content, ds) + (if Twin(h, frames, content, d) then 1 else 0)
  {
    if ds == [] {
      assert ds + [d] == [d];
    } else {
      assert (ds + [d])[1..] == ds[1..] + [d];
      TwinsSnoc(h, frames, content, ds[1..], d);
    }
  }

  /** The bucket when the first `n` descriptors have been examined. */
  function Partial(h: Hash, frames: map<Pfn, Frame>, c: Checksum, ds: seq<Descriptor>, n: nat): seq<Descriptor>
    requires n <= |ds|
  {
    Purge(h, frames, c, ds[..n]) + ds[n..]
  }

  lemma PartialStep(h: Hash, frames: map<Pfn, Frame>, content: Content, ds: seq<Descriptor>, n: nat)
    requires n < |ds|
    ensures
      var c := h.xxhash(content);
      var i := |Purge(h, frames, c, ds[..n])|;
      var now := Partial(h, frames, c, ds, n);
      && i < |now| && now[i] == ds[n]
      && |Purge(h, frames, c, ds[..n + 1])| == i + (if Stale(h, frames, c, ds[n]) then 0 else 1)
      && Partial(h, frames, c, ds, n + 1) == (if Stale(h, frames, c, ds[n]) then now[..i] + now[i + 1..] else now)
      && Twins(h, frames, content, ds[..n + 1])
         == Twins(h, frames, content, ds[..n]) + (if Twin(h, frames, content, ds[n]) then 1 else 0)
  {
    assert ds[..n + 1] == ds[..n] + [ds[n]];
    PurgeSnoc(h, frames, h.xxhash(content), ds[..n], ds[n]);
    TwinsSnoc(h, frames, content, ds[..n], ds[n]);
  }

  // ---------- One visit ----------

  /** The checks a slot must pass before its page is hashed. */
  predicate Acceptable(m: Machine, p: VPage) {
    && p in m.ptes && m.ptes[p].present && m.ptes[p].prot.user
    && m.ptes[p].pfn in m.frames
    && m.frames[m.ptes[p].pfn].anon && !m.frames[m.ptes[p].pfn].huge
  }

  /** The page whose entry `replace_page` rewrites: located, and still equal to the entry visited. */
  function Site(ptes: map<VPage, Pte>, s: Slot): Option<VPage>
    requires s.page in ptes
  {
    if s.located.None? then None
    else
      var q := VPage(s.page.mm, s.located.value);
      if q in ptes && ptes[q] == ptes[s.page] then Some(q) else None
  }

  function AddRef(frames: map<Pfn, Frame>, f: Pfn, n: int): map<Pfn, Frame>
    requires f in frames && frames[f].refs + n >= 0
  {
    frames[f := frames[f].(refs := frames[f].refs + n)]
  }

  function MoveRef(frames: map<Pfn, Frame>, from: Pfn, to: Pfn): map<Pfn, Frame>
    requires Live(frames, from) && Live(frames, to)
  {
    AddRef(AddRef(frames, to, 1), from, -1)
  }

  /** A reference taken around a move and given back leaves only the move. */
  lemma MoveUnderPin(frames: map<Pfn, Frame>, from: Pfn, to: Pfn)
    requires Live(frames, from) && Live(frames, to)
    ensures AddRef(AddRef(frames, to, 1), to, -1) == frames
    ensures Live(MoveRef(AddRef(frames, to, 1), from, to), to)
    ensures AddRef(MoveRef(AddRef(frames, to, 1), from, to), to, -1) == MoveRef(frames, from, to)
  {
  }

  /** Point the entry of `q` at frame `k`, moving one reference. */
  function Retarget(m: Machine, q: VPage, k: Pfn, prot: Prot): Machine
    requires q in m.ptes && m.ptes[q].present
    requires Live(m.frames, k) && Live(m.frames, m.ptes[q].pfn)
  {
    m.(frames := MoveRef(m.frames, m.ptes[q].pfn, k),
       ptes := m.ptes[q := Pte(k, true, prot)])
  }

  /** What the scan decides about one descriptor. */
  datatype Verdict = Skip | Drop | Refuse | Merge

  function Judge(h: Hash, frames: map<Pfn, Frame>, movable: bool, content: Content, d: Descriptor): Verdict {
    if d.checksum != h.xxhash(content) then Skip
    else if !Live(frames, d.pfn) || h.xxhash(frames[d.pfn].content) != d.checksum then Drop
    else if frames[d.pfn].content != content then Skip
    else if movable then Merge else Refuse
  }

  lemma JudgeMeaning(h: Hash, frames: map<Pfn, Frame>, movable: bool, content: Content, d: Descriptor)
    ensures Judge(h, frames, movable, content, d) == Drop <==> Stale(h, frames, h.xxhash(content), d)
    ensures Judge(h, frames, movable, content, d) == Merge <==> Twin(h, frames, content, d) && movable
    ensures Judge(h, frames, movable, content, d) == Refuse <==> Twin(h, frames, content, d) && !movable
  {
  }

  /** Where the scan stops: at the first twin when the entry can be moved, otherwise at the end. */
  function Stop(h: Hash, m: Machine, s: Slot, content: Content): (k: nat)
    requires |m.table| == BUCKETS && s.page in m.ptes
    ensures k <= |m.table[h.bucket(h.xxhash(content))]|
  {
    var ds := m.table[h.bucket(h.xxhash(content))];
    if Site(m.ptes, s).Some? then FirstTwin(h, m.frames, content, ds) else |ds|
  }

  /** The machine when the first `n` descriptors of the bucket have been examined without a merge. */
  function Scanning(h: Hash, m: Machine, content: Content, n: nat): Machine
    requires |m.table| == BUCKETS && n <= |m.table[h.bucket(h.xxhash(content))]|
  {
    var c := h.xxhash(content);
    var b := h.bucket(c);
    var left := Partial(h, m.frames, c, m.table[b], n);
    m.(table := m.table[b := left], size := m.size - (|m.table[b]| - |left|),
       failed := m.failed + Twins(h, m.frames, content, m.table[b][..n]))
  }

  /** Position of the scan in the shrinking bucket. */
  function Cursor(h: Hash, m: Machine, content: Content, n: nat): nat
    requires |m.table| == BUCKETS && n <= |m.table[h.bucket(h.xxhash(content))]|
  {
    |Purge(h, m.frames, h.xxhash(content), m.table[h.bucket(h.xxhash(content))][..n])|
  }

  lemma ScanningStep(h: Hash, m: Machine, content: Content, n: nat)
    requires |m.table| == BUCKETS && n < |m.table[h.bucket(h.xxhash(content))]|
    ensures
      var b := h.bucket(h.xxhash(content));
      var d := m.table[b][n];
      var i := Cursor(h, m, content, n);
      var now, next := Scanning(h, m, content, n), Scanning(h, m, content, n + 1);
      && i < |now.table[b]| && now.table[b][i] == d
      && (Stale(h, m.frames, h.xxhash(content), d) ==>
            && Cursor(h, m, content, n + 1) == i
            && next == now.(table := now.table[b := now.table[b][..i] + now.table[b][i + 1..]], size := now.size - 1))
      && (!Stale(h, m.frames, h.xxhash(content), d) ==>
            && Cursor(h, m, content, n + 1) == i + 1
            && next == now.(failed := now.failed + (if Twin(h, m.frames, content, d) then 1 else 0)))
  {
    PartialStep(h, m.frames, content, m.table[h.bucket(h.xxhash(content))], n);
  }

  lemma ScanningEnds(h: Hash, m: Machine, content: Content)
    requires |m.table| == BUCKETS
    ensures
      var b := h.bucket(h.xxhash(content));
      && Cursor(h, m, content, 0) == 0 && Scanning(h, m, content, 0) == m
      && Cursor(h, m, content, |m.table[b]|) == |Scanning(h, m, content, |m.table[b]|).table[b]|
  {
    var c := h.xxhash(content);
    var ds := m.table[h.bucket(c)];
    assert ds[..0] == [] && ds[..|ds|] == ds;
    assert Partial(h, m.frames, c, ds, 0) == ds;
    assert Partial(h, m.frames, c, ds, |ds|) == Purge(h, m.frames, c, ds);
  }

  /** The machine after the loop: the bucket up to the stop examined, and the entry moved if it stopped early. */
  function Scanned(h: Hash, m: Machine, s: Slot, content: Content): Machine
    requires |m.table| == BUCKETS && s.page in m.ptes && m.ptes[s.page].present && Live(m.frames, m.ptes[s.page].pfn)
  {
    var ds := m.table[h.bucket(h.xxhash(content))];
    var k := Stop(h, m, s, content);
    var now := Scanning(h, m, content, k);
    if k < |ds| then Retarget(now, Site(m.ptes, s).value, ds[k].pfn, s.prot).(merged := now.merged + 1) else now
  }

  /** One turn of the loop on the machine as it is, at position `i` of bucket `b`. */
  function Turn(h: Hash, now: Machine, s: Slot, content: Content, b: BucketIndex, i: nat): Machine
    requires |now.table| == BUCKETS && i < |now.table[b]|
    requires s.page in now.ptes && now.ptes[s.page].present && Live(now.frames, now.ptes[s.page].pfn)
  {
    var ds := now.table[b];
    match Judge(h, now.frames, Site(now.ptes, s).Some?, content, ds[i])
    case Skip => now
    case Refuse => now.(failed := now.failed + 1)
    case Drop => now.(table := now.table[b := ds[..i] + ds[i + 1..]], size := now.size - 1)
    case Merge => Retarget(now, Site(now.ptes, s).value, ds[i].pfn, s.prot).(merged := now.merged + 1)
  }

  lemma TurnAdvances(h: Hash, m: Machine, s: Slot, content: Content, n: nat)
    requires |m.table| == BUCKETS && s.page in m.ptes && m.ptes[s.page].present && Live(m.frames, m.ptes[s.page].pfn)
    requires n < |m.table[h.bucket(h.xxhash(content))]| && n <= Stop(h, m, s, content)
    ensures
      var b, now, i := h.bucket(h.xxhash(content)), Scanning(h, m, content, n), Cursor(h, m, content, n);
      && i < |now.table[b]| && now.frames == m.frames && now.ptes == m.ptes && now.merged == m.merged
      && var verdict := Judge(h, now.frames, Site(now.ptes, s).Some?, content, now.table[b][i]);
      && (verdict == Merge ==>
            n == Stop(h, m, s, content) && Turn(h, now, s, content, b, i) == Scanned(h, m, s, content))
      && (verdict != Merge ==>
            && n < Stop(h, m, s, content)
            && Cursor(h, m, content, n + 1) == (if verdict == Drop then i else i + 1)
            && Turn(h, now, s, content, b, i) == Scanning(h, m, content, n + 1))
  {
    ScanningStep(h, m, content, n);
    JudgeMeaning(h, m.frames, Site(m.ptes, s).Some?, content, m.table[h.bucket(h.xxhash(content))][n]);
  }

  /** Put a descriptor at the head of its bucket. */
  function Track(h: Hash, m: Machine, d: Descriptor): Machine
    requires |m.table| == BUCKETS
  {
    var b := h.bucket(d.checksum);
    m.(table := m.table[b := [d] + m.table[b]], size := m.size + 1)
  }

  function Visit(h: Hash, m: Machine, s: Slot): (r: Machine)
    requires WellFormed(m)
  {
    if !Acceptable(m, s.page) || !s.memory then m.(failed := m.failed + 1)
    else
      var f := m.ptes[s.page].pfn;
      var content := m.frames[f].content;
      var m1 := m.(scanned := m.scanned + 1);
      var m2 := Scanned(h, m1, s, content);
      if m2.merged > m.merged then m2
      else Track(h, m2, Descriptor(h.xxhash(content), f, s.page.vaddr))
  }
}
