/** Small programs: one that shares a trampoline as it should, one whose shared jump-back never comes back. */
module RewriterExamples {
  import opened Common
  import opened Bytes
  import opened X86
  import opened RewriterModel
  import opened RewriterMeaning
  import opened RewriterSimulation
  import opened RewriterJumpBack
  import RewriterIdentity

  const BASE := 0
  const INDIRECTION := 20
  const STACK_LOW := 0x1000
  const STACK_HIGH := 0x2000

  /** The second byte of each of two instructions of length `n`. */
  function Differences(n: nat): set<int> {
    {1, n + 1}
  }

  /** Twice the same instruction, both at bytes where the unikernels differ. */
  function Twice(w: seq<byte>, push: bool): seq<Ins> {
    [Ins(0, w, "", 0, push, true), Ins(|w|, w, "", 0, push, true)]
  }

  /** Long enough for a branch, short enough for the text to end before the indirection section. */
  predicate Fits(w: seq<byte>, push: bool) {
    5 <= |w| <= 7 && !MovesRsp(w) && (push ==> |w| == 5)
  }

  function SiteBytes(w: seq<byte>, push: bool, addr: int): seq<byte>
    requires Fits(w, push) && 0 <= addr <= 7
  {
    [if push then JMP else CALL] + Int32(INDIRECTION - addr - 5) + Nops(|w| - 5)
  }

  /** The pass emits one trampoline and branches to it from both places. */
  function Shared(w: seq<byte>, push: bool): Pass
    requires Fits(w, push) && Trampoline(Twice(w, push)[0], INDIRECTION).Some?
  {
    Pass(SiteBytes(w, push, 0) + SiteBytes(w, push, |w|), Trampoline(Twice(w, push)[0], INDIRECTION).value, INDIRECTION,
         map["" := Target(2, INDIRECTION)])
  }

  lemma BothTouched(w: seq<byte>, push: bool)
    requires Fits(w, push)
    ensures Rewritten(Twice(w, push)[0], BASE, Differences(|w|)) && Rewritten(Twice(w, push)[1], BASE, Differences(|w|))
  {
    assert 1 in Differences(|w|) && |w| + 1 in Differences(|w|);
  }

  lemma PassSnoc(front: seq<Ins>, x: Ins, base: int, diff: set<int>, start: int)
    ensures
      var st := Rewrite(front, base, diff, start);
      Rewrite(front + [x], base, diff, start) == if st.None? then None
        else Process(st.value, x, Rewritten(x, base, diff))
    ensures Text(front + [x]) == Text(front) + x.bytes
  {
    assert (front + [x])[..|front|] == front;
  }

  lemma SharedIsThePass(w: seq<byte>, push: bool)
    requires Fits(w, push) && Trampoline(Twice(w, push)[0], INDIRECTION).Some?
    ensures Rewrite(Twice(w, push), BASE, Differences(|w|), INDIRECTION) == Some(Shared(w, push))
  {
    hide Trampoline, Int32, Rewrite, Rewritten, Text, Nops;
    var x, y, diff := Twice(w, push)[0], Twice(w, push)[1], Differences(|w|);
    BothTouched(w, push);
    PassSnoc([], x, BASE, diff, INDIRECTION);
    PassSnoc([x], y, BASE, diff, INDIRECTION);
    NothingYet(diff);
    assert [] + [x] == [x] && [x] + [y] == Twice(w, push);
    var one := Pass(SiteBytes(w, push, 0), Trampoline(x, INDIRECTION).value, INDIRECTION,
      map["" := Target(1, INDIRECTION)]);
    assert [] + SiteBytes(w, push, 0) == SiteBytes(w, push, 0) && [] + one.ind == one.ind;
    assert Site(x, INDIRECTION) == Some(SiteBytes(w, push, 0)) && Site(y, INDIRECTION) == Some(SiteBytes(w, push, |w|));
    assert Process(Pass([], [], INDIRECTION, map[]), x, true) == Some(one);
    assert one.targets["" := Target(2, INDIRECTION)] == map["" := Target(2, INDIRECTION)];
  }

  lemma NothingYet(diff: set<int>)
    ensures Rewrite([], BASE, diff, INDIRECTION) == Some(Pass([], [], INDIRECTION, map[]))
  {
  }

  lemma TwiceLaidOut(w: seq<byte>, push: bool)
    requires w != []
    ensures Contiguous(Twice(w, push), BASE) && Text(Twice(w, push)) == w + w && Length(Twice(w, push)) == 2 * |w|
  {
    var list := Twice(w, push);
    PassSnoc([], list[0], BASE, {}, 0);
    PassSnoc([list[0]], list[1], BASE, {}, 0);
    assert [] + [list[0]] == [list[0]] && [list[0]] + [list[1]] == list && list[..1] == [list[0]] && list[..0] == [];
    assert Text([]) == [] && [] + w == w;
    assert |Text([list[0]])| == Length([list[0]]);
  }

  /** The program in memory, with an instruction set that has just this one besides the branches. */
  function Sample(isa: Isa, w: seq<byte>, push: bool): Program
    requires Fits(w, push) && Trampoline(Twice(w, push)[0], INDIRECTION).Some?
  {
    Program(isa, STACK_LOW, STACK_HIGH, Place(map[], BASE, w + w), Twice(w, push), BASE, Differences(|w|), INDIRECTION,
            Shared(w, push))
  }

  function Only(w: seq<byte>, effect: Cpu -> Cpu): Isa {
    Isa(v => v == w, (_, s) => effect(s))
  }

  predicate Ordinary(w: seq<byte>) {
    w != [] && w[0] != CALL && w[0] != JMP && w[0] != RET && w[0] != NOP
  }

  lemma SampleLoaded(isa: Isa, w: seq<byte>, effect: Cpu -> Cpu, push: bool)
    requires Fits(w, push) && Ordinary(w) && isa == Only(w, effect) && Trampoline(Twice(w, push)[0], INDIRECTION).Some?
    ensures Loaded(Sample(isa, w, push))
  {
    hide Trampoline, Rewrite, Text, Place;
    TwiceLaidOut(w, push);
    SharedIsThePass(w, push);
    PlacedAt(map[], BASE, w + w);
    forall u, v | Encodes(isa, u) && Encodes(isa, v) && u <= v
      ensures u == v
    {
      assert u[0] == v[0];
    }
  }

  // ---------- A shared trampoline that returns ----------

  /** Move an immediate to a register, in five bytes and in seven. */
  const MOV: seq<byte> := [0xba, 0, 0, 0, 0]
  const LONG_MOV: seq<byte> := [0x48, 0xc7, 0xc2, 0, 0, 0, 0]

  function MovEffect(len: nat, s: Cpu): Cpu {
    s.(pc := s.pc + len, regs := s.regs["rdx" := 0])
  }

  function Mover(w: seq<byte>): Isa {
    Only(w, s => MovEffect(|w|, s))
  }

  lemma MovTrampoline(w: seq<byte>)
    requires w == MOV || w == LONG_MOV
    ensures Trampoline(Twice(w, false)[0], INDIRECTION) == Some(w + [RET])
  {
  }

  /** Programs to which the simulation theorem applies, with two sites and one trampoline. */
  lemma SharedReturn(w: seq<byte>) returns (p: Program)
    requires w == MOV || w == LONG_MOV
    ensures Loaded(p) && Simulable(p) && UniqueJumpBacks(p)
    ensures |p.list| == 2 && p.list[0].bytes == p.list[1].bytes == w && IsRewritten(p, 0) && IsRewritten(p, 1)
    ensures |p.st.text| == 2 * |w| && p.st.text[0] == p.st.text[|w|] == 0xe8 && p.st.ind == w + [0xc3]
  {
    hide Loaded, Simulable, UniqueJumpBacks, Trampoline, Text, Rewritten, Int32, Rewrite, Place, MovEffect;
    MovTrampoline(w);
    p := Sample(Mover(w), w, false);
    SampleLoaded(Mover(w), w, s => MovEffect(|w|, s), false);
    BothTouched(w, false);
    MovSimulable(w, p);
  }

  lemma MovSimulable(w: seq<byte>, p: Program)
    requires (w == MOV || w == LONG_MOV) && p.list == Twice(w, false)
    requires p.isa == Mover(w) && p.lo == STACK_LOW && p.hi == STACK_HIGH
    ensures Simulable(p) && UniqueJumpBacks(p)
  {
    hide Rewritten, RspIndependent, PcIndependent, MovEffect;
    MovIndependent(w);
    assert p.list[0].bytes == p.list[1].bytes == w && IsPlain(p.list[0]) && IsPlain(p.list[1]);
    assert !IsJumpBack(p.list[0]) && !IsJumpBack(p.list[1]);
    assert Interchangeable(p.isa, w, w);
  }

  lemma MovUnderReturn(len: nat, s: Cpu, ret: nat, at: int)
    requires Settled(STACK_LOW, s)
    ensures MovEffect(len, UnderReturn(s, ret, at)) == Push(MovEffect(len, s), ret).(pc := at + len)
    ensures MovEffect(len, s).pc == s.pc + len && MovEffect(len, s).rsp == s.rsp
    ensures Settled(STACK_LOW, MovEffect(len, s))
  {
    hide Store8;
  }

  lemma MovIndependent(w: seq<byte>)
    ensures RspIndependent(Mover(w), STACK_LOW, STACK_HIGH, w)
  {
    hide Settled, UnderReturn, MovEffect, Push;
    var isa := Mover(w);
    forall s: Cpu, ret: nat, at: int | Settled(STACK_LOW, s) && STACK_LOW <= s.rsp - 8 && s.rsp <= STACK_HIGH
      ensures SameUnderReturn(isa, STACK_LOW, w, s, ret, at)
    {
      MovUnderReturn(|w|, s, ret, at);
      assert isa.exec(w, s) == MovEffect(|w|, s);
      assert isa.exec(w, UnderReturn(s, ret, at)) == MovEffect(|w|, UnderReturn(s, ret, at));
    }
  }

  // ---------- Stores to data ----------

  /** Store one byte at an absolute address. */
  function StoreEffect(a: int, v: byte, len: nat, s: Cpu): Cpu {
    s.(pc := s.pc + len, mem := s.mem[a := v])
  }

  lemma PlaceCommutes(mem: map<int, byte>, base: int, b: seq<byte>, a: int, v: byte)
    requires !(base <= a < base + |b|)
    ensures Place(mem, base, b)[a := v] == Place(mem[a := v], base, b)
  {
  }

  lemma StoreUnderReturn(lo: int, hi: int, a: int, v: byte, len: nat, s: Cpu, ret: nat, at: int)
    requires !(lo <= a < hi) && Settled(lo, s) && lo <= s.rsp - 8 && s.rsp <= hi
    ensures StoreEffect(a, v, len, UnderReturn(s, ret, at)) == Push(StoreEffect(a, v, len, s), ret).(pc := at + len)
    ensures Settled(lo, StoreEffect(a, v, len, s))
  {
    hide LittleEndian, Place;
    PlaceCommutes(s.mem, s.rsp - 8, LittleEndian(ret, 8), a, v);
  }

  /** Stores outside the stack are among the supported instructions, below it and above it. */
  lemma StoresSupported(isa: Isa, lo: int, hi: int, w: seq<byte>, a: int, v: byte)
    requires !(lo <= a < hi) && forall s :: isa.exec(w, s) == StoreEffect(a, v, |w|, s)
    ensures RspIndependent(isa, lo, hi, w)
  {
    hide Settled, UnderReturn, Push;
    forall s: Cpu, ret: nat, at: int | Settled(lo, s) && lo <= s.rsp - 8 && s.rsp <= hi
      ensures SameUnderReturn(isa, lo, w, s, ret, at)
    {
      StoreUnderReturn(lo, hi, a, v, |w|, s, ret, at);
      assert isa.exec(w, s) == StoreEffect(a, v, |w|, s);
    }
  }

  // ---------- A shared trampoline that does not come back ----------

  const PUSH: seq<byte> := [PUSH_IMM, 0, 0, 0, 0]

  function PushEffect(s: Cpu): Cpu {
    Push(s, 0).(pc := s.pc + 5)
  }

  lemma PushTrampoline()
    ensures Trampoline(Twice(PUSH, true)[0], INDIRECTION) == Some(PUSH + ([JMP] + Int32(-INDIRECTION - 5)))
  {
  }

  ghost function LostPush(): Program {
    PushTrampoline();
    Sample(Only(PUSH, PushEffect), PUSH, true)
  }

  lemma LostPushLoaded()
    ensures Loaded(LostPush()) && Simulable(LostPush()) && !UniqueJumpBacks(LostPush())
    ensures |LostPush().list| == 2 && IsRewritten(LostPush(), 1) && IsJumpBack(LostPush().list[1])
      && !FirstUser(LostPush(), 1)
  {
    hide Loaded, Trampoline, Text, Rewritten;
    PushTrampoline();
    var isa := Only(PUSH, PushEffect);
    SampleLoaded(isa, PUSH, PushEffect, true);
    BothTouched(PUSH, true);
    PushIndependent(isa);
    var p := LostPush();
    assert p.list == Twice(PUSH, true) && p.isa == isa;
    assert !JumpBackOnce(p, 1, 0);
    assert Supported(p, 0) && Supported(p, 1);
  }

  lemma PushIndependent(isa: Isa)
    requires isa == Only(PUSH, PushEffect)
    ensures PcIndependent(isa, PUSH)
  {
    forall s: Cpu, at: int
      ensures isa.exec(PUSH, s).pc == s.pc + 5 && isa.exec(PUSH, Moved(s, at)) == isa.exec(PUSH, s).(pc := at + 5)
    {
      assert isa.exec(PUSH, s) == PushEffect(s) && isa.exec(PUSH, Moved(s, at)) == PushEffect(Moved(s, at));
    }
  }

  /** The second site, the trampoline and its jump, which leads to the second site again. */
  predicate InCycle(pc: int) {
    pc == 5 || pc == INDIRECTION || pc == INDIRECTION + 5
  }

  lemma CycleFetched()
    ensures
      var code := NewCode(LostPush());
      && At(code, 5, [JMP] + Int32(10)) && At(code, INDIRECTION, PUSH)
      && At(code, INDIRECTION + 5, [JMP] + Int32(-INDIRECTION - 5))
  {
    hide At, Place, Int32;
    PushTrampoline();
    var p := LostPush();
    var text, ind := p.st.text, p.st.ind;
    LowerSlice(p.code, BASE, text, INDIRECTION, ind, 5, 5);
    assert text[5..10] == [JMP] + Int32(10);
    UpperSlice(Place(p.code, BASE, text), INDIRECTION, ind, 0, 5);
    UpperSlice(Place(p.code, BASE, text), INDIRECTION, ind, 5, 5);
    assert ind[0..5] == PUSH && ind[5..10] == [JMP] + Int32(-INDIRECTION - 5);
  }

  lemma CycleStep(s: Cpu, t: Cpu)
    requires InCycle(s.pc) && Step(LostPush().isa, LostPush().lo, NewCode(LostPush()), s, t)
    ensures InCycle(t.pc)
  {
    hide At, NewCode, Int32, Loaded, Step;
    var p := LostPush();
    CycleFetched();
    LostPushLoaded();
    LoadedPrefixFree(p);
    if s.pc == INDIRECTION {
      OnlyStep(p.isa, p.lo, NewCode(p), s, PUSH, t);
      assert p.isa == Only(PUSH, PushEffect) && Exec(p.isa, PUSH, s) == PushEffect(s);
    } else {
      var d := if s.pc == 5 then 10 else -INDIRECTION - 5;
      Int32RoundTrip(d);
      assert ([JMP] + Int32(d))[1..] == Int32(d);
      OnlyStep(p.isa, p.lo, NewCode(p), s, [JMP] + Int32(d), t);
    }
  }

  lemma {:induction false} CycleForever(s: Cpu, n: nat, t: Cpu)
    requires InCycle(s.pc) && Chain(StepOf(LostPush().isa, LostPush().lo, NewCode(LostPush())), s, n, t)
    ensures InCycle(t.pc)
    decreases n
  {
    hide NewCode, Step;
    if n > 0 {
      var r := StepOf(LostPush().isa, LostPush().lo, NewCode(LostPush()));
      var u :| r(s, u) && Chain(r, u, n - 1, t);
      CycleStep(s, u);
      CycleForever(u, n - 1, t);
    } else {
      assert s == t && s.pc == t.pc;
    }
  }

  /** The original steps past its second push; the rewritten code pushes for ever and never gets there. */
  lemma SecondPushNeverLeft(s: Cpu)
    requires s.pc == 5 && Settled(LostPush().lo, s)
    ensures
      var p := LostPush();
      var t := Forget(p.lo, PushEffect(s));
      && t.pc == 10 && Step(p.isa, p.lo, p.code, s, t) && !Reaches(p.isa, p.lo, NewCode(p), s, t)
  {
    hide Loaded, NewCode, Step;
    var p := LostPush();
    var t := Forget(p.lo, PushEffect(s));
    LostPushLoaded();
    PushStepsOn(s);
    if Reaches(p.isa, p.lo, NewCode(p), s, t) {
      var n: nat :| n > 0 && Chain(StepOf(p.isa, p.lo, NewCode(p)), s, n, t);
      CycleForever(s, n, t);
    }
  }

  lemma PushStepsOn(s: Cpu)
    requires s.pc == 5
    ensures Step(LostPush().isa, LostPush().lo, LostPush().code, s, Forget(LostPush().lo, PushEffect(s)))
  {
    hide Loaded, At, NewCode, Store8, Forget, Text, Trampoline;
    var p := LostPush();
    LostPushLoaded();
    OriginalFetched(p, 1);
    assert StepVia(p.isa, p.lo, p.code, s, PUSH, Forget(p.lo, PushEffect(s)));
  }

  // ---------- A difference that stays ----------

  /** A short jump, with no room for a branch to the indirection section; its second byte tells the unikernels apart. */
  function ShortJump(d: byte): RewriterIdentity.Section {
    RewriterIdentity.Section([Ins(0, [0xeb, d], "", 0, false, true)], BASE, INDIRECTION)
  }

  lemma ShortJumpKept(d: byte, diff: set<int>)
    ensures Contiguous(ShortJump(d).list, BASE) && Text(ShortJump(d).list) == [0xeb, d]
    ensures
      Rewrite(ShortJump(d).list, BASE, diff, INDIRECTION) == Some(Pass([0xeb, d], [], INDIRECTION, map[]))
  {
    var list := ShortJump(d).list;
    assert list[..0] == [] && [] + [0xeb, d] == [0xeb, d];
  }

  lemma OneDifference(cs: seq<seq<byte>>)
    requires cs == [[0xeb, 1], [0xeb, 2]]
    ensures RewriterIdentity.NeighbourDiffs(cs) == {1}
  {
    assert RewriterIdentity.Differ(cs, 0, 1);
    forall k
      ensures k in RewriterIdentity.NeighbourDiffs(cs) <==> k in {1}
    {
      RewriterIdentity.InDiffs(cs, k);
    }
  }

  lemma ShortJumpsAlike(c: byte, d: byte)
    ensures RewriterIdentity.Alike(ShortJump(c), ShortJump(d))
    ensures RewriterIdentity.SamePattern(ShortJump(c), ShortJump(d), {1})
  {
    hide Contiguous, Touched;
    ShortJumpKept(c, {});
    ShortJumpKept(d, {});
  }

  /** Two unikernels to which the identity theorem applies and whose rewritten texts differ. */
  lemma ShortDifferenceStays() returns (us: seq<RewriterIdentity.Section>)
    ensures RewriterIdentity.Family(us, {1}) && |us| == 2
    ensures !RewriterIdentity.Covered(us[0], {1})
    ensures RewriterIdentity.NewText(us[0], {1}) != RewriterIdentity.NewText(us[1], {1})
  {
    hide RewriterIdentity.Alike, RewriterIdentity.SamePattern, RewriterIdentity.NeighbourDiffs, Rewrite, Text;
    us := [ShortJump(1), ShortJump(2)];
    ShortJumpKept(1, {1});
    ShortJumpKept(2, {1});
    OneDifference(RewriterIdentity.Contents(us));
    ShortJumpsAlike(1, 1);
    ShortJumpsAlike(1, 2);
    ShortJumpsAlike(2, 1);
    ShortJumpsAlike(2, 2);
    assert [0xeb, 1][1] != [0xeb, 2][1];
    assert 1 in {1} && Touched(us[0].list[0], us[0].base, {1});
  }

  // ---------- A difference that disappears ----------

  /** A move of seven bytes whose constant tells the unikernels apart. */
  function LongMove(d: byte): RewriterIdentity.Section {
    RewriterIdentity.Section([Ins(0, [0x48, 0xc7, 0xc2, d, 0, 0, 0], "", 0, false, true)], BASE, INDIRECTION)
  }

  lemma LongMoveLaidOut(d: byte)
    ensures Contiguous(LongMove(d).list, BASE) && Text(LongMove(d).list) == LongMove(d).list[0].bytes
  {
    var list := LongMove(d).list;
    assert list[..0] == [] && [] + list[0].bytes == list[0].bytes;
  }

  lemma LongMoveSite(ins: Ins)
    requires |ins.bytes| == 7 && !MovesRsp(ins.bytes) && ins.addr == 0
    ensures Site(ins, INDIRECTION) == Some([0xe8] + Int32(15) + [0x90, 0x90])
    ensures Trampoline(ins, INDIRECTION).Some?
  {
    hide Int32;
    assert Nops(2) == [0x90, 0x90];
  }

  lemma LongMoveRewritten(d: byte)
    ensures
      var st := Rewrite(LongMove(d).list, BASE, {3}, INDIRECTION);
      st.Some? && st.value.text == [0xe8] + Int32(15) + [0x90, 0x90]
  {
    hide Int32, Site, Trampoline, Rewrite, Text;
    var ins := LongMove(d).list[0];
    assert 3 in {3} && Rewritten(ins, BASE, {3});
    NothingYet({3});
    PassSnoc([], ins, BASE, {3}, INDIRECTION);
    LongMoveSite(ins);
    assert [] + [ins] == LongMove(d).list;
  }

  lemma ConstantsDiffer(cs: seq<seq<byte>>)
    requires cs == [[0x48, 0xc7, 0xc2, 1, 0, 0, 0], [0x48, 0xc7, 0xc2, 2, 0, 0, 0]]
    ensures RewriterIdentity.NeighbourDiffs(cs) == {3}
  {
    assert RewriterIdentity.Differ(cs, 0, 3);
    forall k
      ensures k in RewriterIdentity.NeighbourDiffs(cs) <==> k in {3}
    {
      RewriterIdentity.InDiffs(cs, k);
    }
  }

  lemma LongMovesAlike(c: byte, d: byte)
    ensures RewriterIdentity.Alike(LongMove(c), LongMove(d))
    ensures RewriterIdentity.SamePattern(LongMove(c), LongMove(d), {3})
  {
    hide Contiguous, Touched;
    LongMoveLaidOut(c);
    LongMoveLaidOut(d);
  }

  /** Two unikernels whose texts differ inside an instruction of seven bytes and are equal once rewritten. */
  lemma LongDifferenceGoes() returns (us: seq<RewriterIdentity.Section>)
    ensures RewriterIdentity.Family(us, {3}) && |us| == 2 && Text(us[0].list) != Text(us[1].list)
    ensures |us[0].list| == |us[1].list| == 1 && |us[0].list[0].bytes| == |us[1].list[0].bytes| == 7
    ensures RewriterIdentity.NewText(us[0], {3}) == RewriterIdentity.NewText(us[1], {3})
  {
    hide RewriterIdentity.Alike, RewriterIdentity.SamePattern, RewriterIdentity.NeighbourDiffs, Rewrite, Text;
    us := [LongMove(1), LongMove(2)];
    LongMoveRewritten(1);
    LongMoveRewritten(2);
    LongMoveLaidOut(1);
    LongMoveLaidOut(2);
    ConstantsDiffer(RewriterIdentity.Contents(us));
    LongMovesAlike(1, 1);
    LongMovesAlike(1, 2);
    LongMovesAlike(2, 1);
    LongMovesAlike(2, 2);
    assert us[0].list[0].bytes[3] != us[1].list[0].bytes[3];
  }
}
