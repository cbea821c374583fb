/** An address space as a sorted list of areas, the flag advice that can be given, and what an address sees. */
module MadviseModel {
  import opened Common

  datatype Flag =
    | RandRead | SeqRead | DontCopy | Wipe | NoDump
    | Io | DontExpand | PfnMap | MixedMap | Shared | Hugetlb | Other(n: nat)

  /** What must be equal for two adjacent areas to become one, apart from the flags. */
  datatype Backing = Backing(file: Option<nat>, origin: int, rest: nat)

  datatype Vma = Vma(start: nat, end: nat, flags: set<Flag>, backing: Backing)

  datatype Advice =
    | Normal | Sequential | Random | DontFork | DoFork | WipeOnFork | KeepOnFork | DontDump | DoDump
    | Mergeable | Unmergeable

  datatype Cell = Cell(flags: set<Flag>, backing: Backing)

  predicate Sorted(vs: seq<Vma>) {
    && (forall i :: 0 <= i < |vs| ==> vs[i].start < vs[i].end)
    && (forall i, j :: 0 <= i < j < |vs| ==> vs[i].end <= vs[j].start)
  }

  predicate Contains(v: Vma, a: int) {
    v.start <= a < v.end
  }

  /** What address `a` sees. */
  function At(vs: seq<Vma>, a: int): Option<Cell> {
    if vs == [] then None
    else if Contains(vs[0], a) then Some(Cell(vs[0].flags, vs[0].backing))
    else At(vs[1..], a)
  }

  // ---------- The advice ----------

  function NewFlags(advice: Advice, f: set<Flag>): set<Flag> {
    match advice
    case Normal => f - {RandRead, SeqRead}
    case Sequential => f - {RandRead} + {SeqRead}
    case Random => f - {SeqRead} + {RandRead}
    case DontFork => f + {DontCopy}
    case DoFork => f - {DontCopy}
    case WipeOnFork => f + {Wipe}
    case KeepOnFork => f - {Wipe}
    case DontDump => f + {NoDump}
    case DoDump => f - {NoDump}
    case Mergeable => f
    case Unmergeable => f
  }

  /** The combinations of advice and area that are refused as invalid. */
  predicate Refuses(advice: Advice, c: Cell) {
    match advice
    case DoFork => Io in c.flags
    case WipeOnFork => c.backing.file.Some? || Shared in c.flags
    case DoDump => Hugetlb !in c.flags
      && (Io in c.flags || DontExpand in c.flags || PfnMap in c.flags || MixedMap in c.flags)
    case _ => false
  }

  function Advised(advice: Advice, c: Option<Cell>): Option<Cell> {
    if c.None? then None else Some(c.value.(flags := NewFlags(advice, c.value.flags)))
  }

  /** Flag by flag: which advice sets it and which clears it; no other flag is touched. */
  lemma FlagAfterAdvice(advice: Advice, f: set<Flag>)
    ensures SeqRead in NewFlags(advice, f)
            <==> advice == Sequential || (SeqRead in f && advice != Normal && advice != Random)
    ensures RandRead in NewFlags(advice, f)
            <==> advice == Random || (RandRead in f && advice != Normal && advice != Sequential)
    ensures DontCopy in NewFlags(advice, f) <==> advice == DontFork || (DontCopy in f && advice != DoFork)
    ensures Wipe in NewFlags(advice, f) <==> advice == WipeOnFork || (Wipe in f && advice != KeepOnFork)
    ensures NoDump in NewFlags(advice, f) <==> advice == DontDump || (NoDump in f && advice != DoDump)
    ensures forall x :: x !in {SeqRead, RandRead, DontCopy, Wipe, NoDump} ==> (x in NewFlags(advice, f) <==> x in f)
  {
  }

  /** Area by area: device memory is not forked again nor dumped, special areas are not dumped, files not wiped. */
  lemma RefusedAdvice(advice: Advice, c: Cell)
    ensures Io in c.flags ==>
              (Refuses(advice, c) <==> advice == DoFork || (advice == DoDump && Hugetlb !in c.flags)
                                       || (advice == WipeOnFork && (c.backing.file.Some? || Shared in c.flags)))
    ensures Io !in c.flags && c.flags !! {DontExpand, PfnMap, MixedMap} ==>
              (Refuses(advice, c) <==> advice == WipeOnFork && (c.backing.file.Some? || Shared in c.flags))
    ensures Io !in c.flags && !(c.flags !! {DontExpand, PfnMap, MixedMap}) ==>
              (Refuses(advice, c) <==> (advice == DoDump && Hugetlb !in c.flags)
                                       || (advice == WipeOnFork && (c.backing.file.Some? || Shared in c.flags)))
  {
  }

  /** Giving the same advice again changes nothing and is not refused. */
  lemma AdviceIdempotent(advice: Advice, c: Cell)
    ensures NewFlags(advice, NewFlags(advice, c.flags)) == NewFlags(advice, c.flags)
    ensures !Refuses(advice, c) ==> !Refuses(advice, c.(flags := NewFlags(advice, c.flags)))
  {
  }

  // ---------- Reading the list ----------

  lemma {:induction false} AtConcat(xs: seq<Vma>, ys: seq<Vma>, a: int)
    ensures At(xs + ys, a) == if At(xs, a).Some? then At(xs, a) else At(ys, a)
  {
    if xs == [] {
      assert xs + ys == ys;
    } else {
      assert (xs + ys)[1..] == xs[1..] + ys;
      AtConcat(xs[1..], ys, a);
    }
  }

  lemma {:induction false} AtNone(vs: seq<Vma>, a: int)
    requires forall i :: 0 <= i < |vs| ==> !Contains(vs[i], a)
    ensures At(vs, a).None?
  {
    if vs != [] {
      AtNone(vs[1..], a);
    }
  }

  lemma {:induction false} AtIndex(vs: seq<Vma>, i: nat, a: int)
    requires Sorted(vs) && i < |vs| && Contains(vs[i], a)
    ensures At(vs, a) == Some(Cell(vs[i].flags, vs[i].backing))
    decreases i
  {
    if i > 0 {
      assert !Contains(vs[0], a);
      assert Sorted(vs[1..]);
      AtIndex(vs[1..], i - 1, a);
    }
  }

  /** Replacing a stretch of the list is seen only through that stretch. */
  function Splice(vs: seq<Vma>, i: nat, n: nat, mid: seq<Vma>): seq<Vma>
    requires i + n <= |vs|
  {
    vs[..i] + mid + vs[i + n..]
  }

  lemma AtSplice(vs: seq<Vma>, i: nat, n: nat, mid: seq<Vma>, a: int)
    requires i + n <= |vs|
    ensures At(vs, a) == if At(vs[..i], a).Some? then At(vs[..i], a)
                         else if At(vs[i..i + n], a).Some? then At(vs[i..i + n], a) else At(vs[i + n..], a)
    ensures At(Splice(vs, i, n, mid), a) == if At(vs[..i], a).Some? then At(vs[..i], a)
                                            else if At(mid, a).Some? then At(mid, a) else At(vs[i + n..], a)
  {
    assert vs == vs[..i] + vs[i..i + n] + vs[i + n..];
    AtConcat(vs[..i] + vs[i..i + n], vs[i + n..], a);
    AtConcat(vs[..i], vs[i..i + n], a);
    AtConcat(vs[..i] + mid, vs[i + n..], a);
    AtConcat(vs[..i], mid, a);
  }

  /** Areas outside a stretch do not contain what the stretch contains. */
  lemma StretchAlone(vs: seq<Vma>, i: nat, n: nat, a: int)
    requires Sorted(vs) && i + n <= |vs| && n > 0 && vs[i].start <= a < vs[i + n - 1].end
    ensures At(vs[..i], a).None? && At(vs[i + n..], a).None?
  {
    AtNone(vs[..i], a);
    AtNone(vs[i + n..], a);
  }

  /** `mid` can stand for `n` areas from `i` on: same extent, sorted. */
  ghost predicate Fits(vs: seq<Vma>, i: nat, n: nat, mid: seq<Vma>) {
    && i + n <= |vs| && n > 0 && mid != [] && Sorted(mid)
    && mid[0].start == vs[i].start && mid[|mid| - 1].end == vs[i + n - 1].end
  }

  lemma {:induction false} WithinExtent(mid: seq<Vma>, k: nat)
    requires Sorted(mid) && k < |mid|
    ensures mid[0].start <= mid[k].start && mid[k].end <= mid[|mid| - 1].end
  {
    if 0 < k { assert mid[0].end <= mid[k].start; }
    if k < |mid| - 1 { assert mid[k].end <= mid[|mid| - 1].start; }
  }

  lemma SpliceSorted(vs: seq<Vma>, i: nat, n: nat, mid: seq<Vma>)
    requires Sorted(vs) && Fits(vs, i, n, mid)
    ensures Sorted(Splice(vs, i, n, mid))
  {
    var r := Splice(vs, i, n, mid);
    forall x, y | 0 <= x < y < |r|
      ensures r[x].end <= r[y].start
    {
      if i <= x < i + |mid| { WithinExtent(mid, x - i); }
      if i <= y < i + |mid| { WithinExtent(mid, y - i); }
      if x < i && i <= y { assert vs[x].end <= vs[i].start; }
      if x < i + |mid| <= y { assert y - |mid| + n > i + n - 1; assert vs[i + n - 1].end <= vs[y - |mid| + n].start; }
    }
  }

  /** The whole effect of replacing a stretch: inside its extent by `mid`, elsewhere nothing. */
  lemma SpliceSeen(vs: seq<Vma>, i: nat, n: nat, mid: seq<Vma>, a: int)
    requires Sorted(vs) && Fits(vs, i, n, mid)
    ensures At(Splice(vs, i, n, mid), a)
            == if vs[i].start <= a < vs[i + n - 1].end then At(mid, a) else At(vs, a)
    ensures vs[i].start <= a < vs[i + n - 1].end ==> At(vs, a) == At(vs[i..i + n], a)
  {
    AtSplice(vs, i, n, mid, a);
    if vs[i].start <= a < vs[i + n - 1].end {
      StretchAlone(vs, i, n, a);
    } else {
      forall k | 0 <= k < |mid|
        ensures !Contains(mid[k], a)
      {
        WithinExtent(mid, k);
      }
      AtNone(mid, a);
      var was := vs[i..i + n];
      assert Sorted(was);
      forall k | 0 <= k < |was|
        ensures !Contains(was[k], a)
      {
        WithinExtent(was, k);
      }
      AtNone(was, a);
    }
  }
}
