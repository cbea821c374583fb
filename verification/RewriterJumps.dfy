/** What becomes of a five-byte jump when it is rewritten. */
module RewriterJumps {
  import opened Common
  import opened Bytes
  import opened X86
  import opened RewriterModel
  import opened RewriterMeaning
  import opened RewriterSimulation
  import opened RewriterJumpBack

  predicate IsJump(ins: Ins) {
    |ins.bytes| == 5 && ins.bytes[0] == 0xe9 && !ins.push
  }

  /** `t` follows from `s` in two steps. */
  ghost predicate Second(isa: Isa, lo: int, code: Image, s: Cpu, t: Cpu) {
    exists u :: Step(isa, lo, code, s, u) && Step(isa, lo, code, u, t)
  }

  /** A fetched call pushes its successor and leads to its target, and nowhere else. */
  lemma OnlyCall(isa: Isa, lo: int, code: Image, s: Cpu, d: int, t: Cpu)
    requires PrefixFree(isa) && FitsInt32(d) && At(code, s.pc, [CALL] + Int32(d))
    ensures Step(isa, lo, code, s, t) <==> t == Forget(lo, UnderReturn(s, Wrap(s.pc + 5), s.pc + 5 + d))
  {
    hide PrefixFree, Step, Store8, Forget, At, Int32, Signed32;
    var w := [CALL] + Int32(d);
    Int32RoundTrip(d);
    assert w[1..] == Int32(d);
    OnlyStep(isa, lo, code, s, w, t);
  }

  lemma JumpSplits(code: Image, b: Ins, at: int)
    requires IsJump(b) && Trampoline(b, at).Some? && At(code, at, Trampoline(b, at).value)
    ensures FitsInt32(b.target - at - 5) && At(code, at, [JMP] + Int32(b.target - at - 5))
  {
    var jump := [JMP] + Int32(b.target - at - 5);
    AtSlice(code, at, jump + [RET], 0, 5);
    assert (jump + [RET])[0..5] == jump;
  }

  lemma JumpSecond(isa: Isa, lo: int, code: Image, a: Ins, b: Ins, at: int, s: Cpu, t: Cpu)
    requires PrefixFree(isa) && Routed(code, a, b, at) && s.pc == a.addr && IsJump(a) && IsJump(b)
    ensures Second(isa, lo, code, s, t) <==> t == Forget(lo, UnderReturn(s, Wrap(s.pc + 5), b.target))
  {
    hide Step, Settled, Forget, At, PrefixFree, Trampoline, Int32, UnderReturn;
    JumpSplits(code, b, at);
    var u := UnderReturn(s, Wrap(s.pc + 5), at);
    SettledMoved(lo, u, 0);
    ReturnMoved(lo, s, Wrap(s.pc + 5), at, b.target);
    if Second(isa, lo, code, s, t) {
      var x :| Step(isa, lo, code, s, x) && Step(isa, lo, code, x, t);
      OnlyCall(isa, lo, code, s, at - a.addr - 5, x);
    } else {
      OnlyCall(isa, lo, code, s, at - a.addr - 5, Forget(lo, u));
    }
    OnlyJump(isa, lo, code, Forget(lo, u), b.target - at - 5, t);
  }

  lemma ReturnMoved(lo: int, s: Cpu, ret: nat, at: int, target: int)
    ensures Forget(lo, UnderReturn(s, ret, at)).pc == at
    ensures Moved(Forget(lo, UnderReturn(s, ret, at)), target) == Forget(lo, UnderReturn(s, ret, target))
  {
    hide Store8;
  }

  /**
    A rewritten jump arrives at its target, but as a call: the only state after its two branches has one more return
    address on the stack than the state the original jump leads to.
   */
  lemma JumpBecomesCall(p: Program, i: nat, s: Cpu)
    requires Loaded(p) && i < |p.list| && IsRewritten(p, i) && IsJump(p.list[i])
    requires p.list[i].target == p.list[i].addr + 5 + Signed32(p.list[i].bytes[1..])
    requires forall j :: 0 <= j < i && IsRewritten(p, j) && p.list[j].key == p.list[i].key ==>
               IsJump(p.list[j]) && p.list[j].target == p.list[i].target
    requires s.pc == p.list[i].addr && Settled(p.lo, s)
    ensures forall t :: Step(p.isa, p.lo, p.code, s, t) <==> t == Moved(s, p.list[i].target)
    ensures forall t :: Second(p.isa, p.lo, NewCode(p), s, t) <==> t == UnderReturn(s, s.pc + 5, p.list[i].target)
    ensures UnderReturn(s, s.pc + 5, p.list[i].target).rsp == Moved(s, p.list[i].target).rsp - 8
  {
    hide Step, Second, NewCode, Settled, At, Forget, PrefixFree, Rewrite, Trampoline, Encodes, Store8, Signed32;
    var ins := p.list[i];
    var j, at := RouteOf(p, i);
    OriginalFetched(p, i);
    SettledPush(p.lo, s, ins.target);
    JumpExecuted(p.isa, ins.bytes, s);
    forall t
      ensures Step(p.isa, p.lo, p.code, s, t) <==> t == Moved(s, ins.target)
      ensures Second(p.isa, p.lo, NewCode(p), s, t) <==> t == UnderReturn(s, s.pc + 5, ins.target)
    {
      OnlyStep(p.isa, p.lo, p.code, s, ins.bytes, t);
      JumpSecond(p.isa, p.lo, NewCode(p), ins, p.list[j], at, s, t);
    }
  }

  lemma JumpExecuted(isa: Isa, w: seq<byte>, s: Cpu)
    requires |w| == 5 && w[0] == 0xe9
    ensures Encodes(isa, w) && Exec(isa, w, s) == Moved(s, s.pc + 5 + Signed32(w[1..]))
  {
  }

  lemma SettledPush(lo: int, s: Cpu, target: int)
    requires Settled(lo, s) && 0 <= s.pc && s.pc + 5 < TWO_64
    ensures Wrap(s.pc + 5) == s.pc + 5
    ensures Forget(lo, UnderReturn(s, s.pc + 5, target)) == UnderReturn(s, s.pc + 5, target)
    ensures Forget(lo, Moved(s, target)) == Moved(s, target)
  {
    hide Store8;
    PushSettled(lo, s, s.pc + 5);
    assert Settled(lo, UnderReturn(s, s.pc + 5, target)) && Settled(lo, Moved(s, target));
    ForgetSettled(lo, UnderReturn(s, s.pc + 5, target));
    ForgetSettled(lo, Moved(s, target));
  }
}
