/** The walk of an advice over an address range, changing the areas in place. */
module MadviseWalk {
  import opened Common
  import opened MadviseModel

  datatype Errno = Success | EINVAL | ENOMEM | EAGAIN | EINTR

  /** `ws` is seen like `vs`, except that addresses in the range have flags `f`. */
  ghost predicate Updated(vs: seq<Vma>, ws: seq<Vma>, start: int, end: int, f: set<Flag>) {
    forall a :: At(ws, a) == if start <= a < end && At(vs, a).Some? then Some(At(vs, a).value.(flags := f))
      else At(vs, a)
  }

  ghost predicate Unseen(vs: seq<Vma>, ws: seq<Vma>) {
    forall a :: At(ws, a) == At(vs, a)
  }

  lemma AtTwo(x: Vma, y: Vma, a: int)
    ensures At([x, y], a) == if Contains(x, a) then Some(Cell(x.flags, x.backing)) else At([y], a)
  {
    assert [x, y][1..] == [y];
  }

  lemma AtThree(x: Vma, y: Vma, z: Vma, a: int)
    ensures At([x, y, z], a) == if Contains(x, a) then Some(Cell(x.flags, x.backing)) else At([y, z], a)
  {
    assert [x, y, z][1..] == [y, z];
  }

  /** A stretch replaced by one seen the same outside the range and with the new flags inside. */
  lemma SpliceUpdates(vs: seq<Vma>, i: nat, n: nat, mid: seq<Vma>, start: int, end: int, f: set<Flag>)
    requires Sorted(vs) && Fits(vs, i, n, mid) && vs[i].start <= start && end <= vs[i + n - 1].end
    requires Updated(vs[i..i + n], mid, start, end, f)
    ensures Sorted(Splice(vs, i, n, mid)) && Updated(vs, Splice(vs, i, n, mid), start, end, f)
  {
    SpliceSorted(vs, i, n, mid);
    forall a
      ensures At(Splice(vs, i, n, mid), a)
              == if start <= a < end && At(vs, a).Some? then Some(At(vs, a).value.(flags := f)) else At(vs, a)
    {
      SpliceSeen(vs, i, n, mid, a);
    }
  }

  /** A range of one area takes new flags and joins its left neighbour, its right neighbour, or both. */
  lemma JoinBoth(p: Vma, v: Vma, q: Vma, f: set<Flag>)
    requires Sorted([p, v, q]) && p.end == v.start && v.end == q.start
    requires p.flags == q.flags == f && p.backing == q.backing == v.backing
    ensures Updated([p, v, q], [Vma(p.start, q.end, f, v.backing)], v.start, v.end, f)
  {
    assert [p, v, q][0] == p && [p, v, q][1] == v && [p, v, q][2] == q;
    forall a
      ensures At([Vma(p.start, q.end, f, v.backing)], a)
              == if v.start <= a < v.end && At([p, v, q], a).Some? then Some(At([p, v, q], a).value.(flags := f))
                else At([p, v, q], a)
    {
      AtThree(p, v, q, a);
      AtTwo(v, q, a);
    }
  }

  lemma JoinLeft(p: Vma, v: Vma, end: int, f: set<Flag>)
    requires Sorted([p, v]) && p.end == v.start < end < v.end && p.flags == f && p.backing == v.backing
    ensures Updated([p, v], [Vma(p.start, end, f, v.backing), v.(start := end)], v.start, end, f)
  {
    assert [p, v][0] == p && [p, v][1] == v;
    var x, y := Vma(p.start, end, f, v.backing), v.(start := end);
    forall a
      ensures At([x, y], a)
              == if v.start <= a < end && At([p, v], a).Some? then Some(At([p, v], a).value.(flags := f))
                 else At([p, v], a)
    {
      AtTwo(p, v, a);
      AtTwo(x, y, a);
    }
  }

  lemma JoinLeftWhole(p: Vma, v: Vma, f: set<Flag>)
    requires Sorted([p, v]) && p.end == v.start && p.flags == f && p.backing == v.backing
    ensures Updated([p, v], [Vma(p.start, v.end, f, v.backing)], v.start, v.end, f)
  {
    assert [p, v][0] == p && [p, v][1] == v;
    forall a
      ensures At([Vma(p.start, v.end, f, v.backing)], a)
              == if v.start <= a < v.end && At([p, v], a).Some? then Some(At([p, v], a).value.(flags := f))
                else At([p, v], a)
    {
      AtTwo(p, v, a);
    }
  }

  lemma JoinRight(v: Vma, q: Vma, start: int, f: set<Flag>)
    requires Sorted([v, q]) && v.start < start < v.end == q.start && q.flags == f && q.backing == v.backing
    ensures Updated([v, q], [v.(end := start), Vma(start, q.end, f, v.backing)], start, v.end, f)
  {
    assert [v, q][0] == v && [v, q][1] == q;
    var x, y := v.(end := start), Vma(start, q.end, f, v.backing);
    forall a
      ensures At([x, y], a)
              == if start <= a < v.end && At([v, q], a).Some? then Some(At([v, q], a).value.(flags := f))
                 else At([v, q], a)
    {
      AtTwo(v, q, a);
      AtTwo(x, y, a);
    }
  }

  lemma JoinRightWhole(v: Vma, q: Vma, f: set<Flag>)
    requires Sorted([v, q]) && v.end == q.start && q.flags == f && q.backing == v.backing
    ensures Updated([v, q], [Vma(v.start, q.end, f, v.backing)], v.start, v.end, f)
  {
    assert [v, q][0] == v && [v, q][1] == q;
    forall a
      ensures At([Vma(v.start, q.end, f, v.backing)], a)
              == if v.start <= a < v.end && At([v, q], a).Some? then Some(At([v, q], a).value.(flags := f))
                else At([v, q], a)
    {
      AtTwo(v, q, a);
    }
  }

  lemma SplitTwo(v: Vma, at: int)
    requires v.start < at < v.end
    ensures Unseen([v], [v.(end := at), v.(start := at)])
  {
    forall a
      ensures At([v.(end := at), v.(start := at)], a) == At([v], a)
    {
      AtTwo(v.(end := at), v.(start := at), a);
    }
  }

  lemma Reflag(v: Vma, f: set<Flag>)
    ensures Updated([v], [v.(flags := f)], v.start, v.end, f)
  {
  }

  // ---------- Progress of the walk ----------

  /** Up to `cur` the advice has taken effect at every mapped address; nothing else changed. */
  ghost predicate Progress(vs: seq<Vma>, ws: seq<Vma>, advice: Advice, start: int, cur: int) {
    forall a :: At(ws, a) == if start <= a < cur then Advised(advice, At(vs, a)) else At(vs, a)
  }

  ghost predicate AllMapped(vs: seq<Vma>, start: int, end: int) {
    forall a :: start <= a < end ==> At(vs, a).Some?
  }

  ghost predicate NoneRefuses(vs: seq<Vma>, advice: Advice, start: int, end: int) {
    forall a :: start <= a < end && At(vs, a).Some? ==> !Refuses(advice, At(vs, a).value)
  }

  /** Areas before `i` end by `cur`, later ones end after it. */
  ghost predicate Cursor(ws: seq<Vma>, i: nat, cur: int) {
    && i <= |ws| && (forall j :: 0 <= j < i ==> ws[j].end <= cur) && (i < |ws| ==> cur < ws[i].end)
  }

  /** Between the cursor and the next area nothing is mapped. */
  lemma HoleIsUnmapped(vs: seq<Vma>, ws: seq<Vma>, advice: Advice, start: int, cur: int, i: nat, a: int)
    requires Sorted(ws) && Cursor(ws, i, cur) && Progress(vs, ws, advice, start, cur)
    requires cur <= a && (i < |ws| ==> a < ws[i].start)
    ensures At(vs, a).None?
  {
    forall j | 0 <= j < |ws|
      ensures !Contains(ws[j], a)
    {
      if i < j { assert ws[i].end <= ws[j].start; }
    }
    AtNone(ws, a);
  }

  lemma SkipHole(vs: seq<Vma>, ws: seq<Vma>, advice: Advice, start: int, cur: int, i: nat, next: int)
    requires Sorted(ws) && Cursor(ws, i, cur) && Progress(vs, ws, advice, start, cur)
      && NoneRefuses(vs, advice, start, cur)
    requires start <= cur < next && (i < |ws| ==> next <= ws[i].start)
    ensures Progress(vs, ws, advice, start, next) && NoneRefuses(vs, advice, start, next)
    ensures !AllMapped(vs, start, next)
    ensures i < |ws| ==> Cursor(ws, i, next)
  {
    forall a | cur <= a < next
      ensures At(vs, a).None?
    {
      HoleIsUnmapped(vs, ws, advice, start, cur, i, a);
    }
    assert At(vs, cur).None?;
  }

  /** What one successful call on the range from `cur` to `tmp` of area `i` leaves: area `k`, possibly longer. */
  ghost predicate Called(ws: seq<Vma>, i: nat, us: seq<Vma>, k: nat, advice: Advice, cur: int, tmp: int)
    requires i < |ws|
  {
    var c := Cell(ws[i].flags, ws[i].backing);
    && Sorted(us) && k < |us| && us[k].start <= cur && tmp <= us[k].end
    && us[k].flags == NewFlags(advice, c.flags) && us[k].backing == c.backing && !Refuses(advice, c)
    && Updated(ws, us, cur, tmp, NewFlags(advice, c.flags))
  }

  lemma CallSeen(vs: seq<Vma>, ws: seq<Vma>, us: seq<Vma>, advice: Advice, start: int, cur: int, tmp: int, i: nat,
      k: nat, a: int)
    requires Sorted(ws) && i < |ws| && ws[i].start <= cur < tmp <= ws[i].end && Progress(vs, ws, advice, start, cur)
    requires Called(ws, i, us, k, advice, cur, tmp) && cur <= a < us[k].end
    ensures At(vs, a).Some? && !Refuses(advice, At(vs, a).value)
    ensures At(us, a) == Advised(advice, At(vs, a))
    ensures tmp <= a ==> At(us, a) == At(vs, a)
  {
    AdviceIdempotent(advice, Cell(ws[i].flags, ws[i].backing));
    AtIndex(us, k, a);
    if a < tmp {
      AtIndex(ws, i, a);
    }
  }

  /** Skipping to the end of the area that took the range is sound: what is skipped is already as advised. */
  lemma CallAdvances(vs: seq<Vma>, ws: seq<Vma>, us: seq<Vma>, advice: Advice, start: int, cur: int, tmp: int, i: nat,
      k: nat, next: int)
    requires Sorted(ws) && i < |ws| && ws[i].start <= cur < tmp <= ws[i].end && start <= cur
    requires Progress(vs, ws, advice, start, cur) && NoneRefuses(vs, advice, start, cur)
    requires Called(ws, i, us, k, advice, cur, tmp) && tmp <= next <= us[k].end
    ensures Progress(vs, us, advice, start, next) && NoneRefuses(vs, advice, start, next)
    ensures AllMapped(vs, cur, next)
  {
    forall a | cur <= a < us[k].end
      ensures At(vs, a).Some? && !Refuses(advice, At(vs, a).value)
      ensures At(us, a) == Advised(advice, At(vs, a)) && (tmp <= a ==> At(us, a) == At(vs, a))
    {
      CallSeen(vs, ws, us, advice, start, cur, tmp, i, k, a);
    }
  }

  lemma CursorAfter(us: seq<Vma>, k: nat)
    requires Sorted(us) && k < |us|
    ensures Cursor(us, k + 1, us[k].end)
  {
    if k + 1 < |us| { assert us[k].end <= us[k + 1].start; }
  }

  /** The page-aligned range of a request, or none when it is malformed; sizes wrap at 64 bits. */
  function RangeOf(start: nat, len: nat): Option<(nat, nat)>
    requires start < TWO_64 && len < TWO_64
  {
    var aligned := (len + PAGE_SIZE - 1) / PAGE_SIZE * PAGE_SIZE % TWO_64;
    var end := (start + aligned) % TWO_64;
    if start % PAGE_SIZE != 0 || (len > 0 && aligned == 0) || end < start then None else Some((start, end))
  }

  /** The range is the request rounded up to whole pages; it is malformed exactly when unaligned or too long. */
  lemma RangeExact(start: nat, len: nat)
    requires start < TWO_64 && len < TWO_64
    ensures RangeOf(start, len).None? <==> start % 0x1000 != 0 || start + len > TWO_64 - 0x1000
    ensures RangeOf(start, len).Some? ==>
              var (s, e) := RangeOf(start, len).value;
              s == start && e % 0x1000 == 0 && start + len <= e < start + len + 0x1000 && e < TWO_64
  {
    var up := (len + PAGE_SIZE - 1) / PAGE_SIZE * PAGE_SIZE;
    assert up % PAGE_SIZE == 0 && len <= up < len + PAGE_SIZE;
    if start % PAGE_SIZE == 0 {
      assert (start + up) % PAGE_SIZE == 0;
    }
  }

  class AddressSpace {
    var vmas: seq<Vma>
    const maxMapCount: nat

    constructor (vmas: seq<Vma>, maxMapCount: nat)
      ensures this.vmas == vmas && this.maxMapCount == maxMapCount
    {
      this.vmas := vmas;
      this.maxMapCount := maxMapCount;
    }

    /** Area `k` covers the range, with flags `f`, and nothing else changed. */
    ghost predicate Took(before: seq<Vma>, k: nat, start: int, end: int, f: set<Flag>, backing: Backing)
      reads this
    {
      && Sorted(vmas) && k < |vmas| && vmas[k].start <= start && end <= vmas[k].end
      && vmas[k].flags == f && vmas[k].backing == backing && Updated(before, vmas, start, end, f)
    }

    predicate Compatible(k: int, f: set<Flag>, backing: Backing)
      reads this
    {
      0 <= k < |vmas| && vmas[k].flags == f && vmas[k].backing == backing
    }

    method MergeBoth(i: nat, f: set<Flag>)
      requires Sorted(vmas) && 0 < i < |vmas| - 1 && vmas[i - 1].end == vmas[i].start
        && vmas[i].end == vmas[i + 1].start
      requires Compatible(i - 1, f, vmas[i].backing) && Compatible(i + 1, f, vmas[i].backing)
      modifies this`vmas
      ensures Took(old(vmas), i - 1, old(vmas)[i].start, old(vmas)[i].end, f, old(vmas)[i].backing)
    {
      var p, v, q := vmas[i - 1], vmas[i], vmas[i + 1];
      assert vmas[i - 1..i + 2] == [p, v, q];
      JoinBoth(p, v, q, f);
      ReplaceStretch(i - 1, 3, [Vma(p.start, q.end, f, v.backing)], v.start, v.end, f);
    }

    method MergeLeft(i: nat, end: int, f: set<Flag>)
      requires Sorted(vmas) && 0 < i < |vmas| && vmas[i - 1].end == vmas[i].start < end <= vmas[i].end
      requires Compatible(i - 1, f, vmas[i].backing)
      modifies this`vmas
      ensures Took(old(vmas), i - 1, old(vmas)[i].start, end, f, old(vmas)[i].backing)
    {
      var p, v := vmas[i - 1], vmas[i];
      assert vmas[i - 1..i + 1] == [p, v];
      if end == v.end {
        JoinLeftWhole(p, v, f);
        ReplaceStretch(i - 1, 2, [Vma(p.start, end, f, v.backing)], v.start, end, f);
      } else {
        JoinLeft(p, v, end, f);
        ReplaceStretch(i - 1, 2, [Vma(p.start, end, f, v.backing), v.(start := end)], v.start, end, f);
      }
    }

    method MergeRight(i: nat, start: int, f: set<Flag>) returns (k: nat)
      requires Sorted(vmas) && i + 1 < |vmas| && vmas[i].start <= start < vmas[i].end == vmas[i + 1].start
      requires Compatible(i + 1, f, vmas[i].backing)
      modifies this`vmas
      ensures Took(old(vmas), k, start, old(vmas)[i].end, f, old(vmas)[i].backing)
    {
      var v, q := vmas[i], vmas[i + 1];
      assert vmas[i..i + 2] == [v, q];
      if start == v.start {
        JoinRightWhole(v, q, f);
        ReplaceStretch(i, 2, [Vma(start, q.end, f, v.backing)], start, v.end, f);
        return i;
      }
      JoinRight(v, q, start, f);
      ReplaceStretch(i, 2, [v.(end := start), Vma(start, q.end, f, v.backing)], start, v.end, f);
      return i + 1;
    }

    /**
      Give a range of area `i` new flags by merging it into an adjacent area that already has them. The memory
      manager may decline for reasons of its own; what it must keep is what every address sees.
     */
    method VmaMerge(i: nat, start: int, end: int, f: set<Flag>) returns (merged: Option<nat>)
      requires Sorted(vmas) && i < |vmas| && vmas[i].start <= start < end <= vmas[i].end
      modifies this`vmas
      ensures merged.None? ==> vmas == old(vmas)
      ensures merged.Some? ==> Took(old(vmas), merged.value, start, end, f, old(vmas)[i].backing)
    {
      var v := vmas[i];
      var declineLeft: bool, declineRight: bool := *, *;
      var left := start == v.start && !declineLeft && Compatible(i - 1, f, v.backing) && vmas[i - 1].end == start;
      var right := end == v.end && !declineRight && Compatible(i + 1, f, v.backing) && vmas[i + 1].start == end;
      if left && right {
        MergeBoth(i, f);
        return Some(i - 1);
      } else if left {
        MergeLeft(i, end, f);
        return Some(i - 1);
      } else if right {
        var k := MergeRight(i, start, f);
        return Some(k);
      }
      return None;
    }

    /** Cut area `i` in two at `at`. */
    method SplitVma(i: nat, at: int) returns (ok: bool)
      requires Sorted(vmas) && i < |vmas| && vmas[i].start < at < vmas[i].end
      modifies this`vmas
      ensures Sorted(vmas) && Unseen(old(vmas), vmas)
      ensures !ok ==> vmas == old(vmas)
      ensures ok ==> vmas == Splice(old(vmas), i, 1, [old(vmas)[i].(end := at), old(vmas)[i].(start := at)])
    {
      var fails: bool := *;
      if fails { return false; }
      var v := vmas[i];
      assert vmas[i..i + 1] == [v];
      SplitTwo(v, at);
      ReplaceStretch(i, 1, [v.(end := at), v.(start := at)], v.start, v.start, {});
      return true;
    }

    /** Make the range exactly one area, cutting area `i` at its ends, then give it the flags. */
    method IsolateAndReflag(i: nat, start: int, end: int, f: set<Flag>) returns (err: Errno, k: nat)
      requires Sorted(vmas) && i < |vmas| && vmas[i].start <= start < end <= vmas[i].end
      modifies this`vmas
      ensures err == Success ==> Took(old(vmas), k, start, end, f, old(vmas)[i].backing)
      ensures err != Success ==> (err == ENOMEM || err == EAGAIN) && Sorted(vmas) && Unseen(old(vmas), vmas)
    {
      k := i;
      if start != vmas[k].start {
        if |vmas| >= maxMapCount { return ENOMEM, k; }
        var ok := SplitVma(k, start);
        if !ok { return EAGAIN, k; }
        k := k + 1;
      }
      if end != vmas[k].end {
        if |vmas| >= maxMapCount { return ENOMEM, k; }
        var ok := SplitVma(k, end);
        if !ok { return EAGAIN, k; }
      }
      assert vmas[k..k + 1] == [vmas[k]];
      Reflag(vmas[k], f);
      ReplaceStretch(k, 1, [vmas[k].(flags := f)], start, end, f);
      return Success, k;
    }

    method ReplaceStretch(i: nat, n: nat, mid: seq<Vma>, ghost start: int, ghost end: int, ghost f: set<Flag>)
      requires Sorted(vmas) && Fits(vmas, i, n, mid) && vmas[i].start <= start && end <= vmas[i + n - 1].end
      requires Updated(vmas[i..i + n], mid, start, end, f)
      modifies this`vmas
      ensures vmas == Splice(old(vmas), i, n, mid)
      ensures Sorted(vmas) && Updated(old(vmas), vmas, start, end, f)
    {
      SpliceUpdates(vmas, i, n, mid, start, end, f);
      vmas := vmas[..i] + mid + vmas[i + n..];
    }

    /** One area: refuse, do nothing, merge, or cut and change. */
    method MadviseBehavior(i: nat, start: int, end: int, advice: Advice) returns (err: Errno, k: nat)
      requires Sorted(vmas) && i < |vmas| && vmas[i].start <= start < end <= vmas[i].end
      modifies this`vmas
      ensures err == Success ==> Called(old(vmas), i, vmas, k, advice, start, end)
      ensures err != Success ==> Sorted(vmas) && Unseen(old(vmas), vmas)
      ensures err == EINVAL <==> Refuses(advice, Cell(old(vmas)[i].flags, old(vmas)[i].backing))
    {
      var v := vmas[i];
      if Refuses(advice, Cell(v.flags, v.backing)) { return EINVAL, i; }
      if advice == Mergeable || advice == Unmergeable {
        var fails: bool := *;
        if fails { return EAGAIN, i; }
      }
      var f := NewFlags(advice, v.flags);
      if f == v.flags {
        forall a | start <= a < end { AtIndex(vmas, i, a); }
        return Success, i;
      }
      var merged := VmaMerge(i, start, end, f);
      if merged.Some? { return Success, merged.value; }
      err, k := IsolateAndReflag(i, start, end, f);
    }

    method FindVma(at: int) returns (i: nat)
      requires Sorted(vmas)
      ensures Cursor(vmas, i, at)
    {
      i := 0;
      while i < |vmas| && vmas[i].end <= at
        invariant i <= |vmas| && forall j :: 0 <= j < i ==> vmas[j].end <= at
      {
        i := i + 1;
      }
    }

    /** One turn of the walk at a mapped address: advise the area and move past what it became. */
    method AdviseArea(i: nat, cur: int, end: int, advice: Advice, ghost vs: seq<Vma>, ghost start: int)
      returns (error: Errno, next: int, j: nat)
      requires Sorted(vmas) && i < |vmas| && vmas[i].start <= cur < vmas[i].end && start <= cur < end
      requires Progress(vs, vmas, advice, start, cur) && NoneRefuses(vs, advice, start, cur)
      modifies this`vmas
      ensures Sorted(vmas) && At(vs, cur).Some?
      ensures error == EINVAL <==> Refuses(advice, At(vs, cur).value)
      ensures error != Success ==> Progress(vs, vmas, advice, start, cur)
      ensures error == Success ==>
                var done := if next < end then next else end;
                && cur < next && Cursor(vmas, j, next)
                && Progress(vs, vmas, advice, start, done) && NoneRefuses(vs, advice, start, done)
                  && AllMapped(vs, cur, done)
    {
      var tmp := if end < vmas[i].end then end else vmas[i].end;
      ghost var ws := vmas;
      AtIndex(ws, i, cur);
      error, j := MadviseBehavior(i, cur, tmp, advice);
      if error != Success { return error, cur, j; }
      next := tmp;
      if next < vmas[j].end { next := vmas[j].end; }
      CallAdvances(vs, ws, vmas, advice, start, cur, tmp, i, j, if next < end then next else end);
      CursorAfter(vmas, j);
      j := j + 1;
    }

    /**
      The walk. Holes are skipped and reported at the end; an error of one area stops the walk at `upto`.
     */
    method Walk(start: int, end: int, advice: Advice) returns (err: Errno, ghost upto: int, ghost completed: bool)
      requires Sorted(vmas) && start < end
      modifies this`vmas
      ensures Sorted(vmas) && start <= upto <= end
      ensures Progress(old(vmas), vmas, advice, start, upto) && NoneRefuses(old(vmas), advice, start, upto)
      ensures completed ==> upto == end
      ensures completed ==> err == if AllMapped(old(vmas), start, end) then Success else ENOMEM
      ensures !completed ==> upto < end && At(old(vmas), upto).Some? && err != Success
      ensures !completed ==> (err == EINVAL <==> Refuses(advice, At(old(vmas), upto).value))
    {
      ghost var vs := vmas;
      var cur := start;
      var hole := false;
      var i: nat := FindVma(start);
      while cur < end
        invariant Sorted(vmas) && start <= cur
        invariant cur < end ==> Cursor(vmas, i, cur)
        invariant Progress(vs, vmas, advice, start, if cur < end then cur else end)
        invariant NoneRefuses(vs, advice, start, if cur < end then cur else end)
        invariant hole <==> !AllMapped(vs, start, if cur < end then cur else end)
        decreases end - cur
      {
        if i == |vmas| {
          SkipHole(vs, vmas, advice, start, cur, i, end);
          return ENOMEM, end, true;
        }
        if cur < vmas[i].start {
          hole := true;
          if vmas[i].start >= end {
            SkipHole(vs, vmas, advice, start, cur, i, end);
            return ENOMEM, end, true;
          }
          SkipHole(vs, vmas, advice, start, cur, i, vmas[i].start);
          cur := vmas[i].start;
        }
        ghost var from := cur;
        var error;
        error, cur, i := AdviseArea(i, cur, end, advice, vs, start);
        if error != Success { return error, from, false; }
      }
      return if hole then ENOMEM else Success, end, true;
    }

    /**
      Flag advice is a pointwise update: every mapped address of the page-aligned range up to `upto` has the updated
      flags, every other address is unchanged, and the result is zero exactly when the whole range was walked and
      all of it was mapped.
     */
    method DoMadvise(start: nat, len: nat, advice: Advice) returns (err: Errno, ghost upto: int, ghost completed: bool)
      requires Sorted(vmas) && start < TWO_64 && len < TWO_64
      modifies this`vmas
      ensures Sorted(vmas)
      ensures RangeOf(start, len).None? <==> start % 0x1000 != 0 || start + len > TWO_64 - 0x1000
      ensures RangeOf(start, len).None? ==> err == EINVAL && vmas == old(vmas)
      ensures RangeOf(start, len).Some? ==>
                var (s, e) := RangeOf(start, len).value;
                && s == start && e % 0x1000 == 0 && start + len <= e < start + len + 0x1000
                && s <= upto <= e && (completed ==> upto == e)
                && Progress(old(vmas), vmas, advice, s, upto) && NoneRefuses(old(vmas), advice, s, upto)
                && (err == Success <==> completed && AllMapped(old(vmas), s, e))
                && (completed && !AllMapped(old(vmas), s, e) ==> err == ENOMEM)
                && (!completed && err != EINTR ==> upto < e && At(old(vmas), upto).Some?
                                                   && (err == EINVAL <==> Refuses(advice, At(old(vmas), upto).value)))
    {
      RangeExact(start, len);
      upto, completed := start, false;
      if start % PAGE_SIZE != 0 { return EINVAL, upto, completed; }
      var aligned := (len + PAGE_SIZE - 1) / PAGE_SIZE * PAGE_SIZE % TWO_64;
      if len > 0 && aligned == 0 { return EINVAL, upto, completed; }
      var end := (start + aligned) % TWO_64;
      if end < start { return EINVAL, upto, completed; }
      if end == start { return Success, upto, true; }
      var killed: bool := *;
      if killed { return EINTR, upto, completed; }
      err, upto, completed := Walk(start, end, advice);
    }
  }
}
