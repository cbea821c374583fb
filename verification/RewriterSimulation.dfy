/** The simulation theorem for whole runs of a rewritten section. */
module RewriterSimulation {
  import opened Common
  import opened Bytes
  import opened X86
  import opened RewriterModel
  import opened RewriterMeaning

  /** In `code`, instruction `a` has become a branch to the trampoline at `at` emitted for instruction `b`. */
  ghost predicate Routed(code: Image, a: Ins, b: Ins, at: int) {
    && |a.bytes| >= 5 && |b.bytes| >= 5 && a.key == b.key
    && FitsInt32(at - a.addr - 5) && At(code, a.addr, [SiteOpcode(a)] + Int32(at - a.addr - 5))
    && At(code, a.addr + 5, Nops(|a.bytes| - 5))
    && Trampoline(b, at).Some? && At(code, at, Trampoline(b, at).value)
  }

  lemma SiteSplits(code: Image, addr: int, site: seq<byte>, op: byte, d: int, n: nat)
    requires FitsInt32(d) && site == [op] + Int32(d) + Nops(n) && At(code, addr, site)
    ensures At(code, addr, [op] + Int32(d)) && At(code, addr + 5, Nops(n))
  {
    AtSlice(code, addr, site, 0, 5);
    AtSlice(code, addr, site, 5, |site|);
    assert site[0..5] == [op] + Int32(d);
    assert site[5..|site|] == Nops(n);
  }

  lemma FirstUse(p: Program, key: string) returns (j: nat)
    requires Rewrite(p.list, p.base, p.diff, p.start) == Some(p.st) && key in p.st.targets
    ensures j < |p.list| && IsRewritten(p, j) && p.list[j].key == key && Holds(p.st, p.list[j], p.st.targets[key].addr)
    ensures forall i :: 0 <= i < j && IsRewritten(p, i) ==> p.list[i].key != key
    ensures p.st.start == p.start
  {
    j := TrampolineInSection(p.list, p.base, p.diff, p.start, key);
    TextLength(p.list, p.base, p.diff, p.start);
  }

  lemma SiteOf(p: Program, i: nat, at: int)
    requires i < |p.list| && p.list[i].addr == p.base + Length(p.list[..i])
    requires p.start + |p.st.ind| <= p.base || p.base + |p.st.text| <= p.start
    requires Stands(p.st, p.list[i], true, Length(p.list[..i])) && at == p.st.targets[p.list[i].key].addr
    ensures FitsInt32(at - p.list[i].addr - 5)
    ensures At(NewCode(p), p.list[i].addr, [SiteOpcode(p.list[i])] + Int32(at - p.list[i].addr - 5))
    ensures At(NewCode(p), p.list[i].addr + 5, Nops(|p.list[i].bytes| - 5))
  {
    hide At, NewCode, Int32;
    var ins := p.list[i];
    PieceFetched(p, i);
    SiteSplits(NewCode(p), ins.addr, Piece(p, i), SiteOpcode(ins), at - ins.addr - 5, |ins.bytes| - 5);
  }

  lemma RouteOf(p: Program, i: nat) returns (j: nat, at: int)
    requires Rewrite(p.list, p.base, p.diff, p.start) == Some(p.st)
    requires i < |p.list| && IsRewritten(p, i) && p.list[i].addr == p.base + Length(p.list[..i])
    requires p.start + |p.st.ind| <= p.base || p.base + Length(p.list) <= p.start
    ensures j <= i && IsRewritten(p, j) && Routed(NewCode(p), p.list[i], p.list[j], at)
    ensures forall k :: 0 <= k < j && IsRewritten(p, k) ==> p.list[k].key != p.list[i].key
  {
    PieceStands(p, i);
    at := p.st.targets[p.list[i].key].addr;
    SiteOf(p, i, at);
    j := FirstUse(p, p.list[i].key);
    TrampolineFetched(p, p.list[j], at);
  }

  // ---------- One step ----------

  /** The only instruction that can be fetched at a listed address is the listed one. */
  lemma StepAtListed(p: Program, i: nat, s: Cpu, t: Cpu)
    requires Loaded(p) && i < |p.list| && s.pc == p.list[i].addr && Step(p.isa, p.lo, p.code, s, t)
    ensures t == Forget(p.lo, Exec(p.isa, p.list[i].bytes, s))
    ensures 0 <= s.pc && s.pc + 5 < TWO_64
  {
    var w :| StepVia(p.isa, p.lo, p.code, s, w, t);
    OriginalFetched(p, i);
    FetchUnique(p.isa, p.code, s.pc, w, p.list[i].bytes);
  }

  lemma ExecCall(isa: Isa, w: seq<byte>, s: Cpu)
    requires |w| == 5 && w[0] == CALL
    ensures Exec(isa, w, s) == UnderReturn(s, Wrap(s.pc + 5), s.pc + 5 + Signed32(w[1..]))
  {
  }

  lemma SimulateCall(isa: Isa, lo: int, code: Image, a: Ins, b: Ins, at: int, s: Cpu)
    requires Routed(code, a, b, at) && s.pc == a.addr && IsCall(a) && IsCall(b)
    requires a.target == b.target == s.pc + 5 + Signed32(a.bytes[1..])
    ensures Reaches(isa, lo, code, s, Forget(lo, Exec(isa, a.bytes, s)))
  {
    hide At, Int32, Signed32, Reaches, UnderReturn, Forget;
    assert Trampoline(b, at) == Branch(JMP, a.target - at - 5);
    CallSite(isa, lo, code, s, at, a.target);
    ExecCall(isa, a.bytes, s);
  }

  lemma NopsAreNops(n: nat)
    ensures |Nops(n)| == n && forall k :: 0 <= k < n ==> Nops(n)[k] == NOP
  {
  }

  lemma PlainSplits(code: Image, b: Ins, at: int)
    requires IsPlain(b) && |b.bytes| >= 5 && Trampoline(b, at).Some? && At(code, at, Trampoline(b, at).value)
    ensures At(code, at, b.bytes) && At(code, at + |b.bytes|, [RET])
  {
    var w := b.bytes;
    AtSlice(code, at, w + [RET], 0, |w|);
    AtSlice(code, at, w + [RET], |w|, |w| + 1);
    assert (w + [RET])[0..|w|] == w && (w + [RET])[|w|..|w| + 1] == [RET];
  }

  /** Interchangeable instructions leave the same settled state, once both continue at the same place. */
  lemma PlainSuccessor(isa: Isa, lo: int, hi: int, v: seq<byte>, w: seq<byte>, s: Cpu)
    requires Encodes(isa, v) && v[0] != CALL && v[0] != JMP && v[0] != RET && v[0] != NOP
    requires RspIndependent(isa, lo, hi, v) && Interchangeable(isa, v, w)
    requires Settled(lo, s) && lo <= s.rsp - 8 && s.rsp <= hi
    ensures Forget(lo, Exec(isa, v, s)) == Moved(isa.exec(w, s), s.pc + |v|)
  {
    var u := UnderReturn(s, 0, 0);
    assert Considered(s);
    ForgetSettled(lo, isa.exec(v, s));
  }

  lemma SimulatePlain(isa: Isa, lo: int, hi: int, code: Image, a: Ins, b: Ins, at: int, s: Cpu)
    requires Routed(code, a, b, at) && s.pc == a.addr && IsPlain(a) && IsPlain(b)
    requires Encodes(isa, a.bytes) && Encodes(isa, b.bytes) && Interchangeable(isa, a.bytes, b.bytes)
    requires RspIndependent(isa, lo, hi, a.bytes) && RspIndependent(isa, lo, hi, b.bytes)
    requires Settled(lo, s) && lo <= s.rsp - 8 && s.rsp <= hi && 0 <= s.pc && s.pc + 5 < TWO_64
    ensures Reaches(isa, lo, code, s, Forget(lo, Exec(isa, a.bytes, s)))
  {
    hide Trampoline, Reaches, At, RspIndependent, Interchangeable, UnderReturn, Settled, Forget;
    PlainSplits(code, b, at);
    PlainTrampoline(isa, lo, hi, code, s, s.pc + 5, at, b.bytes);
    NopsAreNops(|a.bytes| - 5);
    PlainSite(isa, lo, code, s, isa.exec(b.bytes, s), at, Nops(|a.bytes| - 5));
    PlainSuccessor(isa, lo, hi, a.bytes, b.bytes, s);
  }

  lemma JumpBackSplits(code: Image, b: Ins, at: int)
    requires IsJumpBack(b) && |b.bytes| >= 5 && Trampoline(b, at).Some? && At(code, at, Trampoline(b, at).value)
    ensures At(code, at, b.bytes)
    ensures FitsInt32(b.addr - (at + |b.bytes|))
    ensures At(code, at + |b.bytes|, [JMP] + Int32(b.addr - (at + |b.bytes|)))
  {
    var w := b.bytes;
    var tail := [JMP] + Int32(b.addr - (at + |w|));
    assert Trampoline(b, at) == Some(w + tail);
    AtSlice(code, at, w + tail, 0, |w|);
    AtSlice(code, at, w + tail, |w|, |w| + 5);
    assert (w + tail)[0..|w|] == w && (w + tail)[|w|..|w| + 5] == tail;
  }

  /** A jump-back trampoline returns past the head of the instruction it was emitted for. */
  lemma JumpBackLands(isa: Isa, lo: int, code: Image, a: Ins, b: Ins, at: int, s: Cpu)
    requires Routed(code, a, b, at) && s.pc == a.addr && IsJumpBack(a) && IsJumpBack(b)
    requires Encodes(isa, b.bytes) && PcIndependent(isa, b.bytes) && Settled(lo, s)
    ensures Reaches(isa, lo, code, s, Moved(Forget(lo, isa.exec(b.bytes, s)), b.addr + 5))
  {
    JumpBackSplits(code, b, at);
    JumpBackSite(isa, lo, code, s, at, b.bytes, b.addr);
  }

  lemma SimulateJumpBack(isa: Isa, lo: int, code: Image, a: Ins, at: int, s: Cpu)
    requires Routed(code, a, a, at) && s.pc == a.addr && IsJumpBack(a)
    requires Encodes(isa, a.bytes) && PcIndependent(isa, a.bytes) && Settled(lo, s)
    ensures Reaches(isa, lo, code, s, Forget(lo, Exec(isa, a.bytes, s)))
  {
    var w := a.bytes;
    var t := Forget(lo, isa.exec(w, s));
    JumpBackLands(isa, lo, code, a, a, at, s);
    assert Considered(s) && Moved(s, 0).pc == 0;
    NopsAreNops(|w| - 5);
    NopSled(isa, lo, code, Moved(t, s.pc + 5), Nops(|w| - 5));
    assert t == Moved(t, s.pc + |w|);
    ReachesTrans(isa, lo, code, s, Moved(t, s.pc + 5), t);
  }

  // ---------- Whole runs ----------

  /** The instruction about to run touches neither the section nor its indirection section. */
  ghost predicate Outside(p: Program, s: Cpu) {
    forall w :: Encodes(p.isa, w) && At(p.code, s.pc, w) ==>
      && (s.pc + |w| <= p.base || p.base + Length(p.list) <= s.pc)
      && (s.pc + |w| <= p.start || p.start + |p.st.ind| <= s.pc)
  }

  /** Control is at a listed instruction or outside, and the stack has room for one more return address. */
  ghost predicate OnTrack(p: Program, s: Cpu) {
    && p.lo <= s.rsp - 8 && s.rsp <= p.hi
    && ((exists i :: 0 <= i < |p.list| && p.list[i].addr == s.pc) || Outside(p, s))
  }

  lemma OutsideSimulated(p: Program, s: Cpu, t: Cpu)
    requires Outside(p, s) && Step(p.isa, p.lo, p.code, s, t) && |p.st.text| == Length(p.list)
    ensures Reaches(p.isa, p.lo, NewCode(p), s, t)
  {
    var w :| StepVia(p.isa, p.lo, p.code, s, w, t);
    PlaceElsewhere(p.code, p.base, p.st.text, s.pc, w);
    PlaceElsewhere(Place(p.code, p.base, p.st.text), p.start, p.st.ind, s.pc, w);
    OneStep(p.isa, p.lo, NewCode(p), s, w, t);
  }

  lemma KeptSimulated(p: Program, i: nat, s: Cpu)
    requires i < |p.list| && s.pc == p.list[i].addr == p.base + Length(p.list[..i]) && Encodes(p.isa, p.list[i].bytes)
    requires Stands(p.st, p.list[i], false, Length(p.list[..i]))
    requires p.start + |p.st.ind| <= p.base || p.base + |p.st.text| <= p.start
    ensures Reaches(p.isa, p.lo, NewCode(p), s, Forget(p.lo, Exec(p.isa, p.list[i].bytes, s)))
  {
    PieceFetched(p, i);
    OneStep(p.isa, p.lo, NewCode(p), s, p.list[i].bytes, Forget(p.lo, Exec(p.isa, p.list[i].bytes, s)));
  }

  lemma RewrittenSimulated(p: Program, i: nat, j: nat, at: int, s: Cpu)
    requires i < |p.list| && j < |p.list| && IsRewritten(p, i) && IsRewritten(p, j)
    requires Supported(p, i) && Supported(p, j) && KeyFaithful(p, i, j) && JumpBackOnce(p, i, j)
    requires Encodes(p.isa, p.list[i].bytes) && Encodes(p.isa, p.list[j].bytes)
    requires Routed(NewCode(p), p.list[i], p.list[j], at) && s.pc == p.list[i].addr
    requires Settled(p.lo, s) && p.lo <= s.rsp - 8 && s.rsp <= p.hi && 0 <= s.pc && s.pc + 5 < TWO_64
    ensures Reaches(p.isa, p.lo, NewCode(p), s, Forget(p.lo, Exec(p.isa, p.list[i].bytes, s)))
  {
    var code := NewCode(p);
    if IsCall(p.list[i]) {
      SimulateCall(p.isa, p.lo, code, p.list[i], p.list[j], at, s);
    } else if IsPlain(p.list[i]) {
      SimulatePlain(p.isa, p.lo, p.hi, code, p.list[i], p.list[j], at, s);
    } else {
      SimulateJumpBack(p.isa, p.lo, code, p.list[i], at, s);
    }
  }

  lemma StepSimulated(p: Program, s: Cpu, t: Cpu)
    requires Loaded(p) && Simulable(p) && UniqueJumpBacks(p)
    requires OnTrack(p, s) && Settled(p.lo, s) && Step(p.isa, p.lo, p.code, s, t)
    ensures Reaches(p.isa, p.lo, NewCode(p), s, t)
  {
    TextLength(p.list, p.base, p.diff, p.start);
    if Outside(p, s) {
      OutsideSimulated(p, s, t);
    } else {
      var i :| 0 <= i < |p.list| && p.list[i].addr == s.pc;
      StepAtListed(p, i, s, t);
      PieceStands(p, i);
      if IsRewritten(p, i) {
        var j, at := RouteOf(p, i);
        RewrittenSimulated(p, i, j, at, s);
      } else {
        KeptSimulated(p, i, s);
      }
    }
  }

  ghost predicate IsRun(p: Program, path: seq<Cpu>) {
    && path != [] && Settled(p.lo, path[0])
    && (forall k :: 0 <= k < |path| ==> OnTrack(p, path[k]))
    && (forall k :: 0 < k < |path| ==> Step(p.isa, p.lo, p.code, path[k - 1], path[k]))
  }

  lemma StepSettles(isa: Isa, lo: int, code: Image, s: Cpu, t: Cpu)
    requires Step(isa, lo, code, s, t)
    ensures Settled(lo, t)
  {
  }

  lemma {:induction false} ReachesAlong(isa: Isa, lo: int, code: Image, path: seq<Cpu>)
    requires |path| > 1 && forall k :: 0 < k < |path| ==> Reaches(isa, lo, code, path[k - 1], path[k])
    ensures Reaches(isa, lo, code, path[0], path[|path| - 1])
    decreases |path|
  {
    var n := |path| - 1;
    if n > 1 {
      ReachesAlong(isa, lo, code, path[..n]);
      ReachesTrans(isa, lo, code, path[0], path[n - 1], path[n]);
    }
  }

  lemma RunSettles(p: Program, path: seq<Cpu>, k: nat)
    requires IsRun(p, path) && k < |path|
    ensures Settled(p.lo, path[k])
  {
    if k > 0 {
      StepSettles(p.isa, p.lo, p.code, path[k - 1], path[k]);
    }
  }

  /**
    Rewriting preserves meaning: from the same start, the rewritten code passes through every state of any run of
    the original, in order and with equal registers, stack and memory, however many sites share a trampoline.
   */
  lemma RewritingPreservesMeaning(p: Program, path: seq<Cpu>)
    requires Loaded(p) && Simulable(p) && UniqueJumpBacks(p) && IsRun(p, path)
    ensures forall k :: 0 < k < |path| ==> Reaches(p.isa, p.lo, NewCode(p), path[k - 1], path[k])
    ensures |path| > 1 ==> Reaches(p.isa, p.lo, NewCode(p), path[0], path[|path| - 1])
  {
    forall k | 0 < k < |path|
      ensures Reaches(p.isa, p.lo, NewCode(p), path[k - 1], path[k])
    {
      RunSettles(p, path, k - 1);
      StepSimulated(p, path[k - 1], path[k]);
    }
    if |path| > 1 {
      ReachesAlong(p.isa, p.lo, NewCode(p), path);
    }
  }

  // ---------- And nothing else ----------

  ghost predicate Deterministic<T(!new)>(r: (T, T) -> bool) {
    forall s, t, u :: r(s, t) && r(s, u) ==> t == u
  }

  /** A shorter chain lies on a longer one. */
  lemma {:induction false} ChainPrefix<T(!new)>(r: (T, T) -> bool, s: T, m: nat, x: T, n: nat, t: T)
    requires Deterministic(r) && Chain(r, s, m, x) && Chain(r, s, n, t) && m <= n
    ensures Chain(r, x, n - m, t)
    decreases m
  {
    if m > 0 {
      var u :| r(s, u) && Chain(r, u, m - 1, x);
      var v :| r(s, v) && Chain(r, v, n - 1, t);
      assert u == v;
      ChainPrefix(r, u, m - 1, x, n - 1, t);
    }
  }

  lemma StepsDeterministic(isa: Isa, lo: int, code: Image)
    requires PrefixFree(isa)
    ensures Deterministic(StepOf(isa, lo, code))
  {
    var r := StepOf(isa, lo, code);
    forall s, t, u | r(s, t) && r(s, u)
      ensures t == u
    {
      var v :| StepVia(isa, lo, code, s, v, t);
      var w :| StepVia(isa, lo, code, s, w, u);
      FetchUnique(isa, code, s.pc, v, w);
    }
  }

  /** Of two states reached from a third, one is reached from the other. */
  lemma ReachesLinear(isa: Isa, lo: int, code: Image, s: Cpu, x: Cpu, t: Cpu)
    requires PrefixFree(isa) && Reaches(isa, lo, code, s, x) && Reaches(isa, lo, code, s, t)
    ensures x == t || Reaches(isa, lo, code, x, t) || Reaches(isa, lo, code, t, x)
  {
    hide PrefixFree, StepOf, Deterministic;
    StepsDeterministic(isa, lo, code);
    var r := StepOf(isa, lo, code);
    var m: nat :| m > 0 && Chain(r, s, m, x);
    var n: nat :| n > 0 && Chain(r, s, n, t);
    if m <= n {
      ChainPrefix(r, s, m, x, n, t);
    } else {
      ChainPrefix(r, s, n, t, m, x);
    }
  }

  /** `x` lies on the way from `s` to `t` in the rewritten code. */
  ghost predicate OnTheWay(p: Program, s: Cpu, x: Cpu, t: Cpu) {
    Reaches(p.isa, p.lo, NewCode(p), s, x) && (x == t || Reaches(p.isa, p.lo, NewCode(p), x, t))
  }

  /**
    The rewritten code does nothing besides: whatever state it reaches from the start of a run lies on the way between
    two states that follow each other in the original, or comes after the last one.
   */
  lemma {:induction false} RewritingAddsNothing(p: Program, path: seq<Cpu>, x: Cpu)
    requires Loaded(p) && Simulable(p) && UniqueJumpBacks(p) && IsRun(p, path)
    requires Reaches(p.isa, p.lo, NewCode(p), path[0], x)
    ensures
      || (exists k :: 0 < k < |path| && OnTheWay(p, path[k - 1], x, path[k]))
      || Reaches(p.isa, p.lo, NewCode(p), path[|path| - 1], x)
    decreases |path|
  {
    hide Loaded, Simulable, UniqueJumpBacks, Reaches, NewCode, OnTrack, Settled, Step;
    if |path| > 1 {
      RewritingPreservesMeaning(p, path);
      assert Reaches(p.isa, p.lo, NewCode(p), path[0], path[1]);
      LoadedPrefixFree(p);
      ReachesLinear(p.isa, p.lo, NewCode(p), path[0], x, path[1]);
      if x == path[1] || Reaches(p.isa, p.lo, NewCode(p), x, path[1]) {
        assert OnTheWay(p, path[1 - 1], x, path[1]);
      } else {
        var rest := path[1..];
        RunSettles(p, path, 1);
        assert forall k :: 0 <= k < |rest| ==> rest[k] == path[k + 1];
        RewritingAddsNothing(p, rest, x);
        if k :| 0 < k < |rest| && OnTheWay(p, rest[k - 1], x, rest[k]) {
          assert OnTheWay(p, path[k + 1 - 1], x, path[k + 1]);
        }
      }
    }
  }

  lemma LoadedPrefixFree(p: Program)
    requires Loaded(p)
    ensures PrefixFree(p.isa)
  {
  }
}
