/**
  Trampolines that jump back instead of returning: they return to the instruction they were emitted for, so a second
  instruction that shares one does not continue after itself.
 */
module RewriterJumpBack {
  import opened Common
  import opened Bytes
  import opened X86
  import opened RewriterModel
  import opened RewriterMeaning
  import opened RewriterSimulation

  // ---------- What must happen ----------

  /** Where one instruction can be fetched, there is one step. */
  lemma OnlyStep(isa: Isa, lo: int, code: Image, s: Cpu, w: seq<byte>, t: Cpu)
    requires PrefixFree(isa) && Encodes(isa, w) && At(code, s.pc, w)
    ensures Step(isa, lo, code, s, t) <==> t == Forget(lo, Exec(isa, w, s))
  {
    if Step(isa, lo, code, s, t) {
      var v :| StepVia(isa, lo, code, s, v, t);
      FetchUnique(isa, code, s.pc, v, w);
    }
    if t == Forget(lo, Exec(isa, w, s)) {
      assert StepVia(isa, lo, code, s, w, t);
    }
  }

  /** A fetched jump leads to its target and nowhere else. */
  lemma OnlyJump(isa: Isa, lo: int, code: Image, s: Cpu, d: int, t: Cpu)
    requires PrefixFree(isa) && FitsInt32(d) && At(code, s.pc, [JMP] + Int32(d)) && Settled(lo, s)
    ensures Step(isa, lo, code, s, t) <==> t == Moved(s, s.pc + 5 + d)
  {
    var w := [JMP] + Int32(d);
    Int32RoundTrip(d);
    assert w[1..] == Int32(d);
    OnlyStep(isa, lo, code, s, w, t);
    ForgetSettled(lo, Moved(s, s.pc + 5 + d));
  }

  /** `t` follows from `s` in three steps. */
  ghost predicate Third(isa: Isa, lo: int, code: Image, s: Cpu, t: Cpu) {
    exists u, v :: Step(isa, lo, code, s, u) && Step(isa, lo, code, u, v) && Step(isa, lo, code, v, t)
  }

  lemma SettledMoved(lo: int, s: Cpu, at: int)
    ensures Settled(lo, Moved(s, at)) <==> Settled(lo, s)
    ensures Settled(lo, Forget(lo, s))
  {
  }

  /** The instruction in the trampoline runs as it would at the site, and once. */
  lemma OnlyInstruction(isa: Isa, lo: int, code: Image, s: Cpu, w: seq<byte>, at: int, t: Cpu)
    requires PrefixFree(isa) && Encodes(isa, w) && w[0] != CALL && w[0] != JMP && w[0] != RET && w[0] != NOP
    requires PcIndependent(isa, w) && At(code, at, w)
    ensures Step(isa, lo, code, Moved(s, at), t) <==> t == Moved(Forget(lo, isa.exec(w, s)), at + |w|)
  {
    OnlyStep(isa, lo, code, Moved(s, at), w, t);
    assert Considered(s);
    ForgetMoved(lo, isa.exec(w, s), at + |w|);
  }

  /** Jump, instruction, jump: the third step ends past the head of `b`, whichever site `a` was entered at. */
  lemma JumpBackThird(isa: Isa, lo: int, code: Image, a: Ins, b: Ins, at: int, s: Cpu, t: Cpu)
    requires PrefixFree(isa) && Routed(code, a, b, at) && s.pc == a.addr && IsJumpBack(a) && IsJumpBack(b)
    requires Encodes(isa, b.bytes) && PcIndependent(isa, b.bytes) && Settled(lo, s)
    ensures Third(isa, lo, code, s, t) <==> t == Moved(Forget(lo, isa.exec(b.bytes, s)), b.addr + 5)
  {
    hide Step, Settled, Forget, At, PrefixFree, PcIndependent, Trampoline;
    var w := b.bytes;
    var u, v := Moved(s, at), Moved(Forget(lo, isa.exec(w, s)), at + |w|);
    JumpBackSplits(code, b, at);
    SettledMoved(lo, isa.exec(w, s), 0);
    SettledMoved(lo, Forget(lo, isa.exec(w, s)), at + |w|);
    if Third(isa, lo, code, s, t) {
      var x, y :| Step(isa, lo, code, s, x) && Step(isa, lo, code, x, y) && Step(isa, lo, code, y, t);
      OnlyJump(isa, lo, code, s, at - a.addr - 5, x);
      OnlyInstruction(isa, lo, code, s, w, at, y);
    } else {
      OnlyJump(isa, lo, code, s, at - a.addr - 5, u);
      OnlyInstruction(isa, lo, code, s, w, at, v);
    }
    OnlyJump(isa, lo, code, v, b.addr - (at + |w|), t);
  }

  // ---------- First and later users ----------

  /** No earlier rewritten instruction has the same key. */
  predicate FirstUser(p: Program, i: nat)
    requires i < |p.list|
  {
    forall k :: 0 <= k < i && IsRewritten(p, k) ==> p.list[k].key != p.list[i].key
  }

  /** Entered at its site, the instruction has run after three steps and control is at what is left of the site. */
  ghost predicate RunsInPlace(p: Program, i: nat)
    requires i < |p.list|
  {
    forall s, t :: Settled(p.lo, s) && s.pc == p.list[i].addr && Third(p.isa, p.lo, NewCode(p), s, t) ==>
      t == Moved(Forget(p.lo, p.isa.exec(p.list[i].bytes, s)), p.list[i].addr + 5)
  }

  /** A site continues after instruction `j`, the first with its key, and nowhere else. */
  lemma SharedJumpBackGoesToFirst(p: Program, i: nat) returns (j: nat)
    requires Loaded(p) && Simulable(p) && i < |p.list| && IsRewritten(p, i) && IsJumpBack(p.list[i])
    ensures j <= i && IsRewritten(p, j) && p.list[j].key == p.list[i].key && FirstUser(p, j)
    ensures forall s, t :: Settled(p.lo, s) && s.pc == p.list[i].addr ==>
              (Third(p.isa, p.lo, NewCode(p), s, t)
               <==> t == Moved(Forget(p.lo, p.isa.exec(p.list[j].bytes, s)), p.list[j].addr + 5))
  {
    hide Third, NewCode, Settled, At, PcIndependent, RspIndependent, Interchangeable, Forget, PrefixFree, Rewrite,
      Trampoline;
    var at;
    j, at := RouteOf(p, i);
    JumpBackSupported(p, i, j);
    forall s, t | Settled(p.lo, s) && s.pc == p.list[i].addr
      ensures Third(p.isa, p.lo, NewCode(p), s, t)
              <==> t == Moved(Forget(p.lo, p.isa.exec(p.list[j].bytes, s)), p.list[j].addr + 5)
    {
      JumpBackThird(p.isa, p.lo, NewCode(p), p.list[i], p.list[j], at, s, t);
    }
  }

  lemma JumpBackSupported(p: Program, i: nat, j: nat)
    requires Simulable(p) && i < |p.list| && j < |p.list| && IsRewritten(p, i) && IsRewritten(p, j)
    requires IsJumpBack(p.list[i]) && p.list[i].key == p.list[j].key
    ensures IsJumpBack(p.list[j]) && PcIndependent(p.isa, p.list[j].bytes)
  {
    hide PcIndependent, RspIndependent, Interchangeable;
    assert KeyFaithful(p, i, j) && Supported(p, j);
  }

  lemma {:induction false} AddressesGrow(list: seq<Ins>, j: nat, i: nat)
    requires j < i <= |list| && |list[j].bytes| > 0
    ensures Length(list[..j]) < Length(list[..i])
    decreases i
  {
    assert list[..i][..i - 1] == list[..i - 1];
    if j < i - 1 {
      AddressesGrow(list, j, i - 1);
    }
  }

  /** A jump-back site runs in place exactly when it is the first user of its key, and then it is simulated. */
  lemma JumpBackExactly(p: Program, i: nat)
    requires Loaded(p) && Simulable(p) && i < |p.list| && IsRewritten(p, i) && IsJumpBack(p.list[i])
    ensures RunsInPlace(p, i) <==> FirstUser(p, i)
    ensures FirstUser(p, i) ==>
              forall s :: Settled(p.lo, s) && s.pc == p.list[i].addr ==>
                Reaches(p.isa, p.lo, NewCode(p), s, Forget(p.lo, Exec(p.isa, p.list[i].bytes, s)))
  {
    hide Third, NewCode, At, PcIndependent, RspIndependent, Interchangeable, PrefixFree, Rewrite, Trampoline, Reaches;
    var j := SharedJumpBackGoesToFirst(p, i);
    if j < i {
      AddressesGrow(p.list, j, i);
      var s := Cpu(p.list[i].addr, 0, map[], map[]);
      var t := Moved(Forget(p.lo, p.isa.exec(p.list[j].bytes, s)), p.list[j].addr + 5);
      assert Settled(p.lo, s) && Third(p.isa, p.lo, NewCode(p), s, t);
    } else {
      FirstUserSimulated(p, i);
    }
  }

  lemma FirstUserSimulated(p: Program, i: nat)
    requires Loaded(p) && Simulable(p) && i < |p.list| && IsRewritten(p, i) && IsJumpBack(p.list[i]) && FirstUser(p, i)
    ensures forall s :: Settled(p.lo, s) && s.pc == p.list[i].addr ==>
              Reaches(p.isa, p.lo, NewCode(p), s, Forget(p.lo, Exec(p.isa, p.list[i].bytes, s)))
  {
    hide NewCode, Settled, At, PcIndependent, RspIndependent, Interchangeable, Forget, PrefixFree, Rewrite,
      Trampoline, Reaches;
    var j, at := RouteOf(p, i);
    JumpBackSupported(p, i, i);
    forall s | Settled(p.lo, s) && s.pc == p.list[i].addr
      ensures Reaches(p.isa, p.lo, NewCode(p), s, Forget(p.lo, Exec(p.isa, p.list[i].bytes, s)))
    {
      SimulateJumpBack(p.isa, p.lo, NewCode(p), p.list[i], at, s);
    }
  }
}
