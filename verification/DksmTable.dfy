/** What one visit does to the hash table, and the counters that describe it. */
module DksmTable {
  import opened DksmModel
  import opened DksmVisit

  /** The descriptor a visit would add. */
  function Fresh(h: Hash, m: Machine, s: Slot): Descriptor
    requires Acceptable(m, s.page)
  {
    var f := m.ptes[s.page].pfn;
    Descriptor(h.xxhash(m.frames[f].content), f, s.page.vaddr)
  }

  lemma {:induction false} PurgeKeeps(h: Hash, frames: map<Pfn, Frame>, c: Checksum, ds: seq<Descriptor>, d: Descriptor)
    ensures d in Purge(h, frames, c, ds) <==> d in ds && !Stale(h, frames, c, d)
  {
    if ds != [] {
      PurgeKeeps(h, frames, c, ds[1..], d);
    }
  }

  lemma PartialKeeps(h: Hash, frames: map<Pfn, Frame>, c: Checksum, ds: seq<Descriptor>, n: nat, d: Descriptor)
    requires n <= |ds|
    ensures d in Partial(h, frames, c, ds, n) ==> d in ds
    ensures d in ds && !Stale(h, frames, c, d) ==> d in Partial(h, frames, c, ds, n)
  {
    PurgeKeeps(h, frames, c, ds[..n], d);
  }

  /** Only stale descriptors leave, only the descriptor of the visited page enters, and only when nothing merged. */
  lemma VisitTable(h: Hash, m: Machine, s: Slot, b: BucketIndex, d: Descriptor)
    requires WellFormed(m)
    ensures
      var r := Visit(h, m, s);
      var tracks := Acceptable(m, s.page) && s.memory && Merging(h, m, s).None?;
      && |r.table| == BUCKETS
      && (d in r.table[b] ==> d in m.table[b] || (tracks && d == Fresh(h, m, s) && b == h.bucket(d.checksum)))
      && (d in m.table[b] && !Stale(h, m.frames, d.checksum, d) ==> d in r.table[b])
      && (tracks && d == Fresh(h, m, s) && b == h.bucket(d.checksum) ==> d in r.table[b])
  {
    if Acceptable(m, s.page) && s.memory {
      var content := m.frames[m.ptes[s.page].pfn].content;
      var c := h.xxhash(content);
      var m1 := m.(scanned := m.scanned + 1);
      assert Stop(h, m1, s, content) == Stop(h, m, s, content);
      PartialKeeps(h, m.frames, c, m.table[h.bucket(c)], Stop(h, m, s, content), d);
    }
  }

  // ---------- Counters ----------

  function TotalSize(table: seq<seq<Descriptor>>): nat {
    if table == [] then 0 else |table[0]| + TotalSize(table[1..])
  }

  lemma {:induction false} TotalAfterUpdate(table: seq<seq<Descriptor>>, b: nat, ds: seq<Descriptor>)
    requires b < |table|
    ensures TotalSize(table[b := ds]) == TotalSize(table) - |table[b]| + |ds|
  {
    if b == 0 {
      assert table[b := ds][1..] == table[1..];
    } else {
      assert table[b := ds][1..] == table[1..][b - 1 := ds];
      TotalAfterUpdate(table[1..], b - 1, ds);
    }
  }

  lemma {:induction false} EmptyTotal(table: seq<seq<Descriptor>>)
    requires forall b :: 0 <= b < |table| ==> table[b] == []
    ensures TotalSize(table) == 0
  {
    if table != [] {
      EmptyTotal(table[1..]);
    }
  }

  /** A visit keeps the size counter in step with the table and scans either to merge or to track. */
  lemma VisitCounts(h: Hash, m: Machine, s: Slot)
    requires WellFormed(m)
    ensures
      var r := Visit(h, m, s);
      && r.size - m.size == TotalSize(r.table) - TotalSize(m.table)
      && (!Acceptable(m, s.page) || !s.memory ==> r == m.(failed := m.failed + 1))
      && (Acceptable(m, s.page) && s.memory ==> r.scanned == m.scanned + 1)
  {
    if Acceptable(m, s.page) && s.memory {
      var content := m.frames[m.ptes[s.page].pfn].content;
      var c := h.xxhash(content);
      var b := h.bucket(c);
      var m1 := m.(scanned := m.scanned + 1);
      var left := Partial(h, m.frames, c, m.table[b], Stop(h, m1, s, content));
      var now := Scanned(h, m1, s, content);
      TotalAfterUpdate(m.table, b, left);
      assert now.table == m.table[b := left];
      TotalAfterUpdate(now.table, b, [Fresh(h, m, s)] + left);
    }
  }
}
