/** The merger itself: fields updated in place, a bucket loop that deletes while it iterates. */
module DksmEngine {
  import opened Common
  import opened DksmModel
  import opened DksmVisit
  import opened DksmExact
  import opened DksmRuns

  datatype Errno = Success | EINVAL | ENOMEM

  class Dksm {
    const h: Hash
    var frames: map<Pfn, Frame>
    var ptes: map<VPage, Pte>
    var pins: map<Pfn, nat>
    var table: seq<seq<Descriptor>>
    var scanned: nat
    var merged: nat
    var failed: nat
    var size: int
    var running: bool

    ghost function View(): Machine
      reads this
    {
      Machine(frames, ptes, pins, table, scanned, merged, failed, size, running)
    }

    ghost predicate Valid()
      reads this
    {
      WellFormed(View()) && Conserved(View())
    }

    /** The merger is off until told otherwise, with an empty table. */
    constructor (h: Hash, frames: map<Pfn, Frame>, ptes: map<VPage, Pte>, pins: map<Pfn, nat>)
      ensures this.h == h && this.frames == frames && this.ptes == ptes && this.pins == pins
      ensures |table| == BUCKETS && (forall b :: 0 <= b < |table| ==> table[b] == [])
      ensures !running && scanned == merged == failed == 0 && size == 0
    {
      this.h := h;
      this.frames, this.ptes, this.pins := frames, ptes, pins;
      table := seq(BUCKETS, _ => []);
      scanned, merged, failed, size := 0, 0, 0, 0;
      running := false;
    }

    method GetPage(f: Pfn)
      requires f in frames
      modifies this`frames
      ensures frames == AddRef(old(frames), f, 1)
    {
      frames := frames[f := frames[f].(refs := frames[f].refs + 1)];
    }

    method PutPage(f: Pfn)
      requires Live(frames, f)
      modifies this`frames
      ensures frames == AddRef(old(frames), f, -1)
    {
      frames := frames[f := frames[f].(refs := frames[f].refs - 1)];
    }

    /** Succeeds exactly when the located entry still equals the one visited, and then moves it. */
    method ReplacePage(s: Slot, kpage: Pfn)
      returns (ok: bool)
      requires s.page in ptes && ptes[s.page].present
      requires Live(frames, kpage) && Live(frames, ptes[s.page].pfn)
      modifies this`frames, this`ptes
      ensures ok == Site(old(ptes), s).Some?
      ensures ok <==> Reachable(old(View()), s)
      ensures frames == if ok then MoveRef(old(frames), old(ptes)[s.page].pfn, kpage) else old(frames)
      ensures ptes == if ok then old(ptes)[Site(old(ptes), s).value := Pte(kpage, true, s.prot)] else old(ptes)
    {
      var orig := ptes[s.page];
      if s.located.None? { return false; }
      var q := VPage(s.page.mm, s.located.value);
      if q !in ptes || ptes[q] != orig { return false; }
      GetPage(kpage);
      ptes := ptes[q := Pte(kpage, true, s.prot)];
      PutPage(orig.pfn);
      return true;
    }

    method RemoveDescriptor(b: BucketIndex, i: nat)
      requires b < |table| && i < |table[b]|
      modifies this`table, this`size
      ensures table == old(table)[b := old(table)[b][..i] + old(table)[b][i + 1..]]
      ensures size == old(size) - 1
    {
      table := table[b := table[b][..i] + table[b][i + 1..]];
      size := size - 1;
    }

    /** The walk callback. */
    method PageCmpAndMerge(s: Slot) returns (err: Errno)
      requires WellFormed(View())
      modifies this
      ensures View() == Visit(h, old(View()), s)
      ensures err == if Ordinary(old(View()), s.page) && !s.memory then ENOMEM else Success
      ensures scanned == old(scanned) + if Ordinary(old(View()), s.page) && s.memory then 1 else 0
      ensures merged == old(merged) + if Merges(h, old(View()), s) then 1 else 0
      ensures !Ordinary(old(View()), s.page) || !s.memory ==> View() == old(View()).(failed := old(failed) + 1)
      ensures ptes.Keys == old(ptes).Keys
      ensures forall p :: p in old(ptes) && !Ordinary(old(View()), p) ==> ptes[p] == old(ptes)[p]
    {
      hide Scanned, Merges;
      HashedExactly(h, View(), s);
      StaysPut(h, View(), s);
      MergesExactly(h, View(), s);
      if s.page !in ptes || !ptes[s.page].present || !ptes[s.page].prot.user {
        failed := failed + 1;
        return Success;
      }
      var f := ptes[s.page].pfn;
      if !frames[f].anon || frames[f].huge {
        failed := failed + 1;
        return Success;
      }
      if !s.memory {
        failed := failed + 1;
        return ENOMEM;
      }
      var content := frames[f].content;
      var c := h.xxhash(content);
      var d := Descriptor(c, f, s.page.vaddr);
      scanned := scanned + 1;
      var merging := ScanBucket(s, content);
      if !merging {
        var b := h.bucket(c);
        table := table[b := [d] + table[b]];
        size := size + 1;
      }
      return Success;
    }

    /** What the loop body does with one descriptor; every reference it takes is given back. */
    method Examine(s: Slot, content: Content, iter: Descriptor) returns (verdict: Verdict)
      requires s.page in ptes && ptes[s.page].present && Live(frames, ptes[s.page].pfn)
      requires content == frames[ptes[s.page].pfn].content
      modifies this`frames, this`ptes
      ensures verdict == Judge(h, old(frames), Site(old(ptes), s).Some?, content, iter)
      ensures verdict == Merge ==> Live(old(frames), iter.pfn)
      ensures frames == if verdict == Merge then MoveRef(old(frames), old(ptes)[s.page].pfn, iter.pfn) else old(frames)
      ensures ptes == if verdict == Merge then old(ptes)[Site(old(ptes), s).value := Pte(iter.pfn, true, s.prot)]
        else old(ptes)
    {
      if iter.checksum != h.xxhash(content) { return Skip; }
      if iter.pfn !in frames || frames[iter.pfn].refs == 0 { return Drop; }
      MoveUnderPin(frames, ptes[s.page].pfn, iter.pfn);
      GetPage(iter.pfn);
      if h.xxhash(frames[iter.pfn].content) != iter.checksum {
        PutPage(iter.pfn);
        return Drop;
      }
      if frames[ptes[s.page].pfn].content == frames[iter.pfn].content {
        var ok := ReplacePage(s, iter.pfn);
        PutPage(iter.pfn);
        return if ok then Merge else Refuse;
      }
      PutPage(iter.pfn);
      return Skip;
    }

    /** The loop body; `next` is the position of the following descriptor. */
    method ScanOne(s: Slot, content: Content, b: BucketIndex, i: nat) returns (merging: bool, next: nat)
      requires |table| == BUCKETS && i < |table[b]|
      requires s.page in ptes && ptes[s.page].present && Live(frames, ptes[s.page].pfn)
      requires content == frames[ptes[s.page].pfn].content
      modifies this`frames, this`ptes, this`table, this`size, this`failed, this`merged
      ensures View() == Turn(h, old(View()), s, content, b, i)
      ensures
        var verdict := Judge(h, old(frames), Site(old(ptes), s).Some?, content, old(table)[b][i]);
        merging == (verdict == Merge) && next == (if verdict == Drop then i else i + 1)
    {
      var verdict := Examine(s, content, table[b][i]);
      match verdict
      case Merge =>
        merged := merged + 1;
        return true, i + 1;
      case Drop =>
        RemoveDescriptor(b, i);
        return false, i;
      case Refuse =>
        failed := failed + 1;
        return false, i + 1;
      case Skip =>
        return false, i + 1;
    }

    /** The loop over one bucket: drop stale descriptors until a merge succeeds. */
    method ScanBucket(s: Slot, content: Content) returns (merging: bool)
      requires |table| == BUCKETS && Acceptable(View(), s.page) && Live(frames, ptes[s.page].pfn)
      requires content == frames[ptes[s.page].pfn].content
      modifies this`frames, this`ptes, this`table, this`size, this`failed, this`merged
      ensures View() == Scanned(h, old(View()), s, content) && |table| == BUCKETS
      ensures merging <==> merged > old(merged)
    {
      ghost var m := View();
      var b := h.bucket(h.xxhash(content));
      ghost var n := 0;
      var i := 0;
      ScanningEnds(h, m, content);
      while i < |table[b]|
        invariant 0 <= n <= Stop(h, m, s, content) && i == Cursor(h, m, content, n)
        invariant View() == Scanning(h, m, content, n)
        decreases |m.table[b]| - n
      {
        TurnAdvances(h, m, s, content, n);
        merging, i := ScanOne(s, content, b, i);
        if merging { return; }
        n := n + 1;
      }
      return false;
    }

    /** Switch on or off from the number written by the administrator; switching off purges the table. */
    method RunStore(flags: Option<nat>) returns (err: Errno)
      requires Valid()
      modifies this
      ensures err == if flags == Some(0) || flags == Some(1) then Success else EINVAL
      ensures View() == if err == Success then Apply(h, old(View()), SetRun(flags == Some(1))) else old(View())
      ensures err == Success ==> running == (flags == Some(1))
      ensures err == Success && old(running) && !running ==>
                && (forall b :: 0 <= b < |table| ==> table[b] == [])
                && scanned == merged == failed == 0 && size == 0
      ensures Valid()
    {
      ghost var m := View();
      if flags.None? || flags.value > 1 { return EINVAL; }
      var on := flags.value == 1;
      StepKeepsInv(h, m, SetRun(on));
      if running != on {
        running := on;
        if !on {
          var b := 0;
          while b < |table|
            invariant 0 <= b <= |table| == |m.table|
            invariant forall k :: 0 <= k < b ==> table[k] == []
            invariant View() == m.(table := table, running := false)
          {
            table := table[b := []];
            b := b + 1;
          }
          scanned, merged, failed, size := 0, 0, 0, 0;
          assert table == seq(|m.table|, _ => []);
        }
      }
      return Success;
    }

    /**
      Advertise a range: while the merger runs, visit the slots in order until an allocation fails.
      The whole call is a run of advertisements, so every theorem about runs applies to it.
     */
    method Madvise(mergeable: bool, slots: seq<Slot>) returns (err: Errno, visited: nat)
      requires Valid()
      modifies this
      ensures Valid() && visited <= |slots|
      ensures View() == Run(h, old(View()), Advertisements(slots[..visited]))
      ensures err == Success || err == ENOMEM
      ensures err == Success ==> visited == if mergeable && old(running) then |slots| else 0
      ensures err == ENOMEM ==> visited > 0 && !slots[visited - 1].memory
    {
      ghost var m := View();
      visited := 0;
      if !mergeable || !running { return Success, 0; }
      while visited < |slots|
        invariant visited <= |slots| && running && Valid()
        invariant View() == Run(h, m, Advertisements(slots[..visited]))
      {
        var s := slots[visited];
        ghost var now := View();
        StepKeepsInv(h, now, Advertise(s));
        VisitShape(h, now, s);
        err := PageCmpAndMerge(s);
        assert slots[..visited + 1][..visited] == slots[..visited];
        RunSnoc(h, m, Advertisements(slots[..visited]), Advertise(s));
        visited := visited + 1;
        if err != Success { return; }
      }
      return Success, visited;
    }
  }
}
