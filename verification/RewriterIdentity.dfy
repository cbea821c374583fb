/** Rewriting makes the text of a library byte-identical across unikernels. */
module RewriterIdentity {
  import opened Common
  import opened RewriterModel
  import opened RewriterMeaning

  // ---------- Offsets where the unikernels disagree ----------

  /** Section `i` and the next one differ at offset `k`. */
  predicate Differ(cs: seq<seq<byte>>, i: int, k: int) {
    0 <= i < |cs| - 1 && 0 <= k < |cs[i]| && k < |cs[i + 1]| && cs[i][k] != cs[i + 1][k]
  }

  /** Offsets where some section differs from the next one in the list. */
  function NeighbourDiffs(cs: seq<seq<byte>>): set<int> {
    set i, k | 0 <= i < |cs| - 1 && 0 <= k < |cs[i]| && Differ(cs, i, k) :: k
  }

  lemma InDiffs(cs: seq<seq<byte>>, k: int)
    ensures k in NeighbourDiffs(cs) <==> exists i :: Differ(cs, i, k)
  {
  }

  /** Compares each section with the next; fails when the next one is shorter. */
  method DiffCompareBytes(cs: seq<seq<byte>>) returns (diff: Option<set<int>>)
    ensures diff.None? <==> exists i :: 0 <= i < |cs| - 1 && |cs[i + 1]| < |cs[i]|
    ensures diff.Some? ==> diff.value == NeighbourDiffs(cs)
  {
    var offsets: set<int> := {};
    var i := 0;
    while i < |cs| - 1
      invariant 0 <= i && (i <= |cs| - 1 || i == 0)
      invariant forall j :: 0 <= j < i ==> |cs[j]| <= |cs[j + 1]|
      invariant forall o :: o in offsets <==> exists j :: 0 <= j < i && Differ(cs, j, o)
    {
      var k := 0;
      while k < |cs[i]|
        invariant 0 <= k <= |cs[i]| && k <= |cs[i + 1]|
        invariant forall o :: o in offsets <==>
                    (exists j :: 0 <= j < i && Differ(cs, j, o)) || (0 <= o < k && Differ(cs, i, o))
      {
        if k >= |cs[i + 1]| { return None; }
        if cs[i][k] != cs[i + 1][k] {
          offsets := offsets + {k};
        }
        k := k + 1;
      }
      i := i + 1;
    }
    forall o
      ensures o in offsets <==> o in NeighbourDiffs(cs)
    {
      InDiffs(cs, o);
    }
    return Some(offsets);
  }

  lemma {:induction false} AgreementSpreads(cs: seq<seq<byte>>, n: nat, k: nat, a: nat, b: nat)
    requires forall i :: 0 <= i < |cs| ==> |cs[i]| == n
    requires k < n && k !in NeighbourDiffs(cs) && a <= b < |cs|
    ensures cs[a][k] == cs[b][k]
    decreases b
  {
    if a < b {
      AgreementSpreads(cs, n, k, a, b - 1);
      assert !Differ(cs, b - 1, k);
    }
  }

  /** For sections of one size, neighbouring differences are exactly the offsets where not all agree. */
  lemma DiffsAreDisagreements(cs: seq<seq<byte>>, n: nat, k: int)
    requires forall i :: 0 <= i < |cs| ==> |cs[i]| == n
    ensures k in NeighbourDiffs(cs)
            <==> 0 <= k < n && exists a, b :: 0 <= a < |cs| && 0 <= b < |cs| && cs[a][k] != cs[b][k]
  {
    if k in NeighbourDiffs(cs) {
      var i :| 0 <= i < |cs| - 1 && Differ(cs, i, k);
    } else if a, b :| 0 <= k < n && 0 <= a < |cs| && 0 <= b < |cs| && cs[a][k] != cs[b][k] {
      if a <= b { AgreementSpreads(cs, n, k, a, b); } else { AgreementSpreads(cs, n, k, b, a); }
    }
  }

  // ---------- Two sections with the same structure ----------

  datatype Section = Section(list: seq<Ins>, base: int, start: int)

  /** Same size, same opcode class, same eligibility: only the addresses mentioned may differ. */
  predicate SameKind(a: Ins, b: Ins) {
    && |a.bytes| == |b.bytes| > 0 && a.push == b.push && a.eligible == b.eligible
    && (a.bytes[0] == CALL) == (b.bytes[0] == CALL)
    && (a.bytes[0] == PUSH_IMM) == (b.bytes[0] == PUSH_IMM)
    && MovesRsp(a.bytes) == MovesRsp(b.bytes)
  }

  ghost predicate Alike(a: Section, b: Section) {
    && |a.list| == |b.list| && Contiguous(a.list, a.base) && Contiguous(b.list, b.base)
    && a.start - a.base == b.start - b.base
    && forall i :: 0 <= i < |a.list| ==> SameKind(a.list[i], b.list[i])
  }

  /** The same rewritten instructions share a key. */
  ghost predicate SamePattern(a: Section, b: Section, diff: set<int>)
    requires |a.list| == |b.list|
  {
    forall i, j ::
      && 0 <= i < |a.list| && 0 <= j < |a.list|
      && Rewritten(a.list[i], a.base, diff) && Rewritten(a.list[j], a.base, diff) ==>
      (a.list[i].key == a.list[j].key <==> b.list[i].key == b.list[j].key)
  }

  lemma {:induction false} SameLength(a: seq<Ins>, b: seq<Ins>)
    requires |a| == |b| && forall i :: 0 <= i < |a| ==> |a[i].bytes| == |b[i].bytes|
    ensures Length(a) == Length(b)
  {
    if a != [] {
      SameLength(a[..|a| - 1], b[..|b| - 1]);
    }
  }

  lemma SameDecision(a: Section, b: Section, diff: set<int>, i: nat)
    requires Alike(a, b) && i < |a.list|
    ensures a.list[i].addr - a.base == b.list[i].addr - b.base
    ensures Touched(a.list[i], a.base, diff) == Touched(b.list[i], b.base, diff)
    ensures Rewritten(a.list[i], a.base, diff) == Rewritten(b.list[i], b.base, diff)
  {
    assert forall j :: 0 <= j < i ==> SameKind(a.list[j], b.list[j]);
    SameLength(a.list[..i], b.list[..i]);
    assert SameKind(a.list[i], b.list[i]);
  }

  /** Two passes in step: sections equally long, every key at the same distance from the start. */
  ghost predicate InStep(a: Section, b: Section, diff: set<int>, n: nat, p: Pass, q: Pass)
    requires n <= |a.list| == |b.list|
  {
    && p.start == a.start && q.start == b.start && |p.ind| == |q.ind| && |p.text| == |q.text|
    && forall i :: 0 <= i < n && Rewritten(a.list[i], a.base, diff) ==>
         && a.list[i].key in p.targets && b.list[i].key in q.targets
         && p.targets[a.list[i].key].addr - a.start == q.targets[b.list[i].key].addr - b.start
  }

  lemma SameTrampolineSize(a: Ins, b: Ins, at: int, bt: int)
    requires SameKind(a, b) && |a.bytes| >= 5 && Trampoline(a, at).Some? && Trampoline(b, bt).Some?
    ensures |Trampoline(a, at).value| == |Trampoline(b, bt).value|
  {
  }

  lemma SameSite(a: Ins, b: Ins, at: int, bt: int)
    requires SameKind(a, b) && |a.bytes| >= 5 && at - a.addr == bt - b.addr
    ensures Site(a, at) == Site(b, bt)
  {
  }

  /** A key is known to a pass exactly when an earlier rewritten instruction had it. */
  lemma KnownKeys(s: Section, diff: set<int>, n: nat, key: string)
    requires n <= |s.list| && Rewrite(s.list[..n], s.base, diff, s.start).Some?
    ensures key in Rewrite(s.list[..n], s.base, diff, s.start).value.targets
            <==> exists i :: 0 <= i < n && Rewritten(s.list[i], s.base, diff) && s.list[i].key == key
  {
    var front := s.list[..n];
    KeysAreKnown(front, s.base, diff, s.start);
    if key in Rewrite(front, s.base, diff, s.start).value.targets {
      var j := TrampolineInSection(front, s.base, diff, s.start, key);
      assert front[j] == s.list[j];
    }
    assert forall i :: 0 <= i < n ==> front[i] == s.list[i];
  }

  /** What relates the next instructions of two passes in step. */
  ghost predicate NextAlike(a: Section, b: Section, diff: set<int>, n: nat, p: Pass, q: Pass, r: bool)
    requires n < |a.list| == |b.list|
  {
    var x, y := a.list[n], b.list[n];
    && SameKind(x, y) && x.addr - a.base == y.addr - b.base && a.start - a.base == b.start - b.base
    && (r ==> |x.bytes| >= 5) && r == Rewritten(x, a.base, diff)
    && (r ==> (x.key in p.targets <==> y.key in q.targets))
    && (r && x.key in p.targets ==> p.targets[x.key].addr - a.start == q.targets[y.key].addr - b.start)
    && (r ==> forall i :: 0 <= i < n && Rewritten(a.list[i], a.base, diff) ==>
          (a.list[i].key == x.key <==> b.list[i].key == y.key))
    && Process(p, x, r).Some? && Process(q, y, r).Some?
  }

  /** One more instruction keeps two passes in step. */
  lemma StepTogether(a: Section, b: Section, diff: set<int>, n: nat, p: Pass, q: Pass, r: bool)
    requires n < |a.list| == |b.list| && InStep(a, b, diff, n, p, q) && NextAlike(a, b, diff, n, p, q, r)
    ensures InStep(a, b, diff, n + 1, Process(p, a.list[n], r).value, Process(q, b.list[n], r).value)
  {
    var x, y := a.list[n], b.list[n];
    if r && x.key !in p.targets {
      SameTrampolineSize(x, y, p.start + |p.ind|, q.start + |q.ind|);
    }
  }

  /** It appends equal text exactly when it is rewritten or has equal bytes. */
  lemma TextTogether(a: Section, b: Section, diff: set<int>, n: nat, p: Pass, q: Pass, r: bool)
    requires n < |a.list| == |b.list| && InStep(a, b, diff, n, p, q) && NextAlike(a, b, diff, n, p, q, r)
    ensures Process(p, a.list[n], r).value.text == Process(q, b.list[n], r).value.text
            <==> p.text == q.text && (r || a.list[n].bytes == b.list[n].bytes)
  {
    var x, y := a.list[n], b.list[n];
    if r {
      var at := if x.key in p.targets then p.targets[x.key].addr else p.start + |p.ind|;
      var bt := if y.key in q.targets then q.targets[y.key].addr else q.start + |q.ind|;
      SameSite(x, y, at, bt);
      AppendEqual(p.text, q.text, Site(x, at).value, Site(y, bt).value);
    } else {
      AppendEqual(p.text, q.text, x.bytes, y.bytes);
    }
  }

  lemma AppendEqual(a: seq<byte>, b: seq<byte>, x: seq<byte>, y: seq<byte>)
    requires |a| == |b|
    ensures a + x == b + y <==> a == b && x == y
  {
    if a + x == b + y {
      assert a == (a + x)[..|a|] && b == (b + y)[..|b|];
      assert x == (a + x)[|a|..] && y == (b + y)[|b|..];
    }
  }

  // ---------- Whole sections ----------

  /** The pass over the first `n` instructions. */
  function Upto(s: Section, diff: set<int>, n: nat): Option<Pass>
    requires n <= |s.list|
  {
    Rewrite(s.list[..n], s.base, diff, s.start)
  }

  lemma PassOne(s: Section, diff: set<int>, n: nat)
    requires n < |s.list| && Upto(s, diff, n + 1).Some?
    ensures Upto(s, diff, n).Some?
    ensures Upto(s, diff, n + 1) == Process(Upto(s, diff, n).value, s.list[n], Rewritten(s.list[n], s.base, diff))
  {
    assert s.list[..n + 1][..n] == s.list[..n];
  }

  /** A key is new to both passes or to neither, and its trampolines are at the same distance. */
  lemma KnownTogether(a: Section, b: Section, diff: set<int>, n: nat)
    requires Alike(a, b) && SamePattern(a, b, diff) && n < |a.list| && Rewritten(a.list[n], a.base, diff)
    requires Upto(a, diff, n).Some? && Upto(b, diff, n).Some?
    requires InStep(a, b, diff, n, Upto(a, diff, n).value, Upto(b, diff, n).value)
    ensures
      var p, q, k, l := Upto(a, diff, n).value, Upto(b, diff, n).value, a.list[n].key, b.list[n].key;
      && (k in p.targets <==> l in q.targets)
      && (k in p.targets ==> p.targets[k].addr - a.start == q.targets[l].addr - b.start)
  {
    hide Rewrite, Rewritten, Contiguous, SameKind, Upto;
    var k, l := a.list[n].key, b.list[n].key;
    UptoIs(a, diff, n);
    UptoIs(b, diff, n);
    KnownKeys(a, diff, n, k);
    KnownKeys(b, diff, n, l);
    if i :| 0 <= i < n && Rewritten(a.list[i], a.base, diff) && a.list[i].key == k {
      SameDecision(a, b, diff, i);
      assert b.list[i].key == l;
    }
    if i :| 0 <= i < n && Rewritten(b.list[i], b.base, diff) && b.list[i].key == l {
      SameDecision(a, b, diff, i);
      assert a.list[i].key == k;
    }
  }

  lemma UptoIs(s: Section, diff: set<int>, n: nat)
    requires n <= |s.list|
    ensures Upto(s, diff, n) == Rewrite(s.list[..n], s.base, diff, s.start)
  {
  }

  lemma NextIsAlike(a: Section, b: Section, diff: set<int>, n: nat)
    requires Alike(a, b) && SamePattern(a, b, diff) && n < |a.list|
    requires Upto(a, diff, n + 1).Some? && Upto(b, diff, n + 1).Some? && Upto(a, diff, n).Some?
      && Upto(b, diff, n).Some?
    requires InStep(a, b, diff, n, Upto(a, diff, n).value, Upto(b, diff, n).value)
    ensures Rewritten(b.list[n], b.base, diff) == Rewritten(a.list[n], a.base, diff)
    ensures NextAlike(a, b, diff, n, Upto(a, diff, n).value, Upto(b, diff, n).value, Rewritten(a.list[n], a.base, diff))
  {
    hide Upto, Process, Touched, InStep, SameKind, Contiguous;
    SameDecision(a, b, diff, n);
    PassOne(a, diff, n);
    PassOne(b, diff, n);
    if Rewritten(a.list[n], a.base, diff) {
      KnownTogether(a, b, diff, n);
    }
  }

  /** The first `n` instructions that were kept have equal bytes. */
  ghost predicate KeptEqual(a: Section, b: Section, diff: set<int>, n: nat)
    requires n <= |a.list| == |b.list|
  {
    forall i :: 0 <= i < n && !Rewritten(a.list[i], a.base, diff) ==> a.list[i].bytes == b.list[i].bytes
  }

  lemma KeptSnoc(a: Section, b: Section, diff: set<int>, n: nat)
    requires n < |a.list| == |b.list|
    ensures KeptEqual(a, b, diff, n + 1)
            <==> KeptEqual(a, b, diff, n) && (Rewritten(a.list[n], a.base, diff) || a.list[n].bytes == b.list[n].bytes)
  {
    hide Rewritten;
  }

  lemma NothingPassed(a: Section, b: Section, diff: set<int>)
    requires |a.list| == |b.list|
    ensures
      var p, q := Upto(a, diff, 0), Upto(b, diff, 0);
      p.Some? && q.Some? && InStep(a, b, diff, 0, p.value, q.value) && p.value.text == q.value.text == []
  {
  }

  /** Two alike sections end with equal text exactly when the instructions that were kept have equal bytes. */
  lemma {:induction false} EqualTexts(a: Section, b: Section, diff: set<int>, n: nat)
    requires Alike(a, b) && SamePattern(a, b, diff) && n <= |a.list|
    requires Upto(a, diff, n).Some? && Upto(b, diff, n).Some?
    ensures InStep(a, b, diff, n, Upto(a, diff, n).value, Upto(b, diff, n).value)
    ensures Upto(a, diff, n).value.text == Upto(b, diff, n).value.text <==> KeptEqual(a, b, diff, n)
    decreases n
  {
    hide SamePattern, InStep, Process, Rewritten, Upto, SameKind, Contiguous, NextAlike;
    if n == 0 {
      NothingPassed(a, b, diff);
    } else {
      hide KeptEqual;
      PassOne(a, diff, n - 1);
      PassOne(b, diff, n - 1);
      EqualTexts(a, b, diff, n - 1);
      NextIsAlike(a, b, diff, n - 1);
      var p, q := Upto(a, diff, n - 1).value, Upto(b, diff, n - 1).value;
      var r := Rewritten(a.list[n - 1], a.base, diff);
      StepTogether(a, b, diff, n - 1, p, q, r);
      TextTogether(a, b, diff, n - 1, p, q, r);
      KeptSnoc(a, b, diff, n - 1);
    }
  }

  function Contents(us: seq<Section>): (cs: seq<seq<byte>>)
    ensures |cs| == |us|
  {
    seq(|us|, i requires 0 <= i < |us| => Text(us[i].list))
  }

  /** The same library linked into several unikernels, every pass succeeding. */
  ghost predicate Family(us: seq<Section>, diff: set<int>) {
    && diff == NeighbourDiffs(Contents(us))
    && (forall a, b {:trigger Alike(us[a], us[b])} :: 0 <= a < |us| && 0 <= b < |us| ==>
          Alike(us[a], us[b]) && SamePattern(us[a], us[b], diff))
    && (forall a {:trigger Rewrite(us[a].list, us[a].base, diff, us[a].start)} :: 0 <= a < |us| ==>
          Rewrite(us[a].list, us[a].base, diff, us[a].start).Some?)
  }

  function NewText(u: Section, diff: set<int>): seq<byte>
    requires Rewrite(u.list, u.base, diff, u.start).Some?
  {
    Rewrite(u.list, u.base, diff, u.start).value.text
  }

  /** Every difference lies in an instruction that the rewriter takes. */
  ghost predicate Covered(u: Section, diff: set<int>) {
    forall i :: 0 <= i < |u.list| && Touched(u.list[i], u.base, diff) ==> Rewritten(u.list[i], u.base, diff)
  }

  lemma ByteOfText(u: Section, i: nat, o: int)
    requires Contiguous(u.list, u.base) && i < |u.list|
      && u.list[i].addr <= u.base + o < u.list[i].addr + |u.list[i].bytes|
    ensures 0 <= o < Length(u.list) && Text(u.list)[o] == u.list[i].bytes[u.base + o - u.list[i].addr]
  {
    TextSlice(u.list, i);
    var off, len := Length(u.list[..i]), |u.list[i].bytes|;
    assert Text(u.list)[off..off + len][o - off] == Text(u.list)[o];
  }

  /** Alike sections have, at an offset inside instruction `i`, the byte of their own instruction `i`. */
  lemma BytesAt(x: Section, y: Section, diff: set<int>, i: nat, o: int)
    requires Alike(x, y) && i < |x.list| && x.list[i].addr <= x.base + o < x.list[i].addr + |x.list[i].bytes|
    ensures
      var k := x.base + o - x.list[i].addr;
      && |x.list[i].bytes| == |y.list[i].bytes| && 0 <= o < Length(x.list) && o < Length(y.list)
      && x.list[i].bytes[k] == Text(x.list)[o] && y.list[i].bytes[k] == Text(y.list)[o]
  {
    assert SameKind(x.list[i], y.list[i]);
    SameDecision(x, y, diff, i);
    ByteOfText(x, i, o);
    ByteOfText(y, i, o);
  }

  ghost predicate AgreeOff(x: Section, y: Section, diff: set<int>) {
    forall o :: 0 <= o < Length(x.list) && o < Length(y.list) && o !in diff ==> Text(x.list)[o] == Text(y.list)[o]
  }

  /** Instruction `i` has the same bytes in two sections unless a byte of it is at a differing offset. */
  lemma SameBytes(x: Section, y: Section, diff: set<int>, i: nat)
    requires Alike(x, y) && AgreeOff(x, y, diff) && i < |x.list| && !Touched(x.list[i], x.base, diff)
    ensures x.list[i].bytes == y.list[i].bytes
  {
    assert SameKind(x.list[i], y.list[i]);
    forall k | 0 <= k < |x.list[i].bytes|
      ensures x.list[i].bytes[k] == y.list[i].bytes[k]
    {
      BytesAt(x, y, diff, i, x.list[i].addr + k - x.base);
    }
  }

  lemma FamilyPair(us: seq<Section>, diff: set<int>, a: nat, b: nat)
    requires Family(us, diff) && a < |us| && b < |us|
    ensures Alike(us[a], us[b]) && SamePattern(us[a], us[b], diff)
    ensures Length(us[a].list) == Length(us[b].list)
  {
    var x, y := us[a], us[b];
    assert Alike(x, y);
    assert forall j :: 0 <= j < |x.list| ==> SameKind(x.list[j], y.list[j]);
    SameLength(x.list, y.list);
  }

  lemma FamilyDiffs(us: seq<Section>, diff: set<int>, c: nat, o: int)
    requires Family(us, diff) && c < |us|
    ensures forall d :: 0 <= d < |us| ==> Length(us[d].list) == Length(us[c].list)
    ensures o in diff <==>
            (0 <= o < Length(us[c].list) &&
             exists a, b :: 0 <= a < |us| && 0 <= b < |us| && Contents(us)[a][o] != Contents(us)[b][o])
  {
    forall d | 0 <= d < |us|
      ensures Length(us[d].list) == Length(us[c].list)
    {
      FamilyPair(us, diff, c, d);
    }
    DiffsAreDisagreements(Contents(us), Length(us[c].list), o);
  }

  lemma FamilyAgrees(us: seq<Section>, diff: set<int>, a: nat, b: nat)
    requires Family(us, diff) && a < |us| && b < |us|
    ensures AgreeOff(us[a], us[b], diff)
  {
    forall o | 0 <= o < Length(us[a].list) && o < Length(us[b].list) && o !in diff
      ensures Text(us[a].list)[o] == Text(us[b].list)[o]
    {
      FamilyDiffs(us, diff, a, o);
      assert Contents(us)[a][o] == Contents(us)[b][o];
    }
  }

  lemma PairIdentical(x: Section, y: Section, diff: set<int>)
    requires Alike(x, y) && SamePattern(x, y, diff)
    requires Rewrite(x.list, x.base, diff, x.start).Some? && Rewrite(y.list, y.base, diff, y.start).Some?
    ensures NewText(x, diff) == NewText(y, diff)
            <==> forall i :: 0 <= i < |x.list| && !Rewritten(x.list[i], x.base, diff) ==>
              x.list[i].bytes == y.list[i].bytes
  {
    assert x.list[..|x.list|] == x.list && y.list[..|x.list|] == y.list;
    EqualTexts(x, y, diff, |x.list|);
  }

  lemma CoveredPair(us: seq<Section>, diff: set<int>, a: nat, b: nat)
    requires Family(us, diff) && a < |us| && b < |us| && Covered(us[a], diff)
    ensures NewText(us[a], diff) == NewText(us[b], diff)
  {
    FamilyPair(us, diff, a, b);
    FamilyAgrees(us, diff, a, b);
    forall i | 0 <= i < |us[a].list| && !Rewritten(us[a].list[i], us[a].base, diff)
      ensures us[a].list[i].bytes == us[b].list[i].bytes
    {
      SameBytes(us[a], us[b], diff, i);
    }
    PairIdentical(us[a], us[b], diff);
  }

  /** Sections whose texts differ inside a kept instruction are rewritten to different texts. */
  lemma PairDiffers(u: Section, x: Section, y: Section, diff: set<int>, i: nat, o: int)
    requires Alike(u, x) && Alike(u, y) && Alike(x, y) && SamePattern(x, y, diff)
    requires Rewrite(x.list, x.base, diff, x.start).Some? && Rewrite(y.list, y.base, diff, y.start).Some?
    requires i < |u.list| && !Rewritten(u.list[i], u.base, diff)
    requires u.list[i].addr <= u.base + o < u.list[i].addr + |u.list[i].bytes|
    requires 0 <= o < Length(x.list) && o < Length(y.list) && Text(x.list)[o] != Text(y.list)[o]
    ensures NewText(x, diff) != NewText(y, diff)
  {
    BytesAt(u, x, diff, i, o);
    BytesAt(u, y, diff, i, o);
    SameDecision(u, x, diff, i);
    PairIdentical(x, y, diff);
  }

  /** A kept instruction with a byte at a differing offset makes two of the texts differ. */
  lemma UncoveredPair(us: seq<Section>, diff: set<int>, c: nat, i: nat, o: int) returns (a: nat, b: nat)
    requires Family(us, diff) && c < |us| && i < |us[c].list| && !Rewritten(us[c].list[i], us[c].base, diff)
    requires o in diff && us[c].list[i].addr <= us[c].base + o < us[c].list[i].addr + |us[c].list[i].bytes|
    ensures a < |us| && b < |us| && NewText(us[a], diff) != NewText(us[b], diff)
  {
    FamilyDiffs(us, diff, c, o);
    a, b :| 0 <= a < |us| && 0 <= b < |us| && Contents(us)[a][o] != Contents(us)[b][o];
    FamilyPair(us, diff, c, a);
    FamilyPair(us, diff, c, b);
    FamilyPair(us, diff, a, b);
    PairDiffers(us[c], us[a], us[b], diff, i, o);
  }

  /** Every instruction with a byte at a differing offset may be rewritten and has room for a branch. */
  ghost predicate LongEnough(u: Section, diff: set<int>) {
    forall i, o ::
      0 <= i < |u.list| && o in diff && u.list[i].addr <= u.base + o < u.list[i].addr + |u.list[i].bytes| ==>
        u.list[i].eligible && |u.list[i].bytes| >= 5
  }

  lemma CoveredExactly(u: Section, diff: set<int>)
    ensures Covered(u, diff) <==> LongEnough(u, diff)
  {
  }

  /**
    Rewriting makes text identical: the rewritten texts of all unikernels are equal exactly when every differing
    byte lies in an instruction that the rewriter takes, that is in an eligible one of five bytes or more.
   */
  lemma RewritingMakesIdentical(us: seq<Section>, diff: set<int>)
    requires Family(us, diff)
    ensures (forall a, b :: 0 <= a < |us| && 0 <= b < |us| ==> NewText(us[a], diff) == NewText(us[b], diff))
            <==> forall c :: 0 <= c < |us| ==> Covered(us[c], diff)
    ensures (forall a, b :: 0 <= a < |us| && 0 <= b < |us| ==> NewText(us[a], diff) == NewText(us[b], diff))
            <==> forall c :: 0 <= c < |us| ==> LongEnough(us[c], diff)
  {
    forall c | 0 <= c < |us|
      ensures Covered(us[c], diff) <==> LongEnough(us[c], diff)
    {
      CoveredExactly(us[c], diff);
    }
    forall a, b | 0 <= a < |us| && 0 <= b < |us| && Covered(us[a], diff)
      ensures NewText(us[a], diff) == NewText(us[b], diff)
    {
      CoveredPair(us, diff, a, b);
    }
    if c :| 0 <= c < |us| && !Covered(us[c], diff) {
      var i :| 0 <= i < |us[c].list| && Touched(us[c].list[i], us[c].base, diff)
        && !Rewritten(us[c].list[i], us[c].base, diff);
      var o :| o in diff && us[c].list[i].addr <= us[c].base + o < us[c].list[i].addr + |us[c].list[i].bytes|;
      var a, b := UncoveredPair(us, diff, c, i, o);
    }
  }
}
