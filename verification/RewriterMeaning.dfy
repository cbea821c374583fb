/** Rewriting preserves meaning: the rewritten text with its indirection section simulates the original text. */
module RewriterMeaning {
  import opened Common
  import opened Bytes
  import opened X86
  import opened RewriterModel

  /** One section of one unikernel, before and after the pass; the stack lies between `lo` and `hi`. */
  datatype Program = Program(
    isa: Isa, lo: int, hi: int,
    code: Image, list: seq<Ins>, base: int,
    diff: set<int>, start: int, st: Pass)

  function NewCode(p: Program): Image {
    Place(Place(p.code, p.base, p.st.text), p.start, p.st.ind)
  }

  predicate IsRewritten(p: Program, i: nat)
    requires i < |p.list|
  {
    Rewritten(p.list[i], p.base, p.diff)
  }

  /** The decoded list is the code at `base`, the pass succeeded, and the indirection section is elsewhere. */
  ghost predicate Loaded(p: Program) {
    && PrefixFree(p.isa)
    && Contiguous(p.list, p.base) && At(p.code, p.base, Text(p.list))
    && (forall i :: 0 <= i < |p.list| ==> Encodes(p.isa, p.list[i].bytes))
    && Rewrite(p.list, p.base, p.diff, p.start) == Some(p.st)
    && (p.start + |p.st.ind| <= p.base || p.base + Length(p.list) <= p.start)
    && 0 <= p.base && p.base + Length(p.list) + 5 <= TWO_64
  }

  // ---------- What is fetched where ----------

  lemma {:induction false} TextSlice(list: seq<Ins>, i: nat)
    requires i < |list|
    ensures Length(list[..i]) + |list[i].bytes| <= Length(list)
    ensures Text(list)[Length(list[..i])..Length(list[..i]) + |list[i].bytes|] == list[i].bytes
  {
    var n := |list| - 1;
    var front := list[..n];
    if i < n {
      TextSlice(front, i);
      assert front[..i] == list[..i];
      SlicePrefix(Text(front), Text(list), Length(list[..i]), |list[i].bytes|);
    }
  }

  lemma OriginalFetched(p: Program, i: nat)
    requires Loaded(p) && i < |p.list|
    ensures At(p.code, p.list[i].addr, p.list[i].bytes)
    ensures 0 <= p.list[i].addr && p.list[i].addr + 5 < TWO_64
  {
    TextSlice(p.list, i);
    var off := Length(p.list[..i]);
    AtSlice(p.code, p.base, Text(p.list), off, off + |p.list[i].bytes|);
  }

  /** The text that stands for instruction `i`. */
  function Piece(p: Program, i: nat): seq<byte>
    requires i < |p.list| && Length(p.list[..i]) + |p.list[i].bytes| <= |p.st.text|
  {
    p.st.text[Length(p.list[..i])..Length(p.list[..i]) + |p.list[i].bytes|]
  }

  lemma PieceStands(p: Program, i: nat)
    requires Rewrite(p.list, p.base, p.diff, p.start) == Some(p.st) && i < |p.list|
    ensures Stands(p.st, p.list[i], IsRewritten(p, i), Length(p.list[..i]))
    ensures |p.st.text| == Length(p.list)
  {
    SiteInText(p.list, p.base, p.diff, p.start, i);
    TextLength(p.list, p.base, p.diff, p.start);
  }

  lemma PieceFetched(p: Program, i: nat)
    requires i < |p.list| && p.list[i].addr == p.base + Length(p.list[..i])
    requires Length(p.list[..i]) + |p.list[i].bytes| <= |p.st.text|
    requires p.start + |p.st.ind| <= p.base || p.base + |p.st.text| <= p.start
    ensures At(NewCode(p), p.list[i].addr, Piece(p, i))
  {
    LowerSlice(p.code, p.base, p.st.text, p.start, p.st.ind, Length(p.list[..i]), |p.list[i].bytes|);
  }

  lemma TrampolineFetched(p: Program, ins: Ins, at: int)
    requires Holds(p.st, ins, at) && p.st.start == p.start
    ensures At(NewCode(p), at, Trampoline(ins, at).value)
  {
    UpperSlice(Place(p.code, p.base, p.st.text), p.start, p.st.ind, at - p.start, |Trampoline(ins, at).value|);
  }

  // ---------- The instructions the scheme supports ----------

  predicate IsCall(ins: Ins) {
    |ins.bytes| == 5 && ins.bytes[0] == CALL && !ins.push
  }

  /**
    Returned from by a jump to the instruction's own successor: push of an immediate, and moves to the stack
    pointer.
   */
  predicate IsJumpBack(ins: Ins) {
    (|ins.bytes| == 5 && ins.bytes[0] == PUSH_IMM && ins.push) || MovesRsp(ins.bytes)
  }

  predicate IsPlain(ins: Ins) {
    || (|ins.bytes| == 5 && ins.bytes[0] != CALL && ins.bytes[0] != JMP && ins.bytes[0] != PUSH_IMM && !ins.push)
    || (|ins.bytes| > 5 && !MovesRsp(ins.bytes))
  }

  /** Names a state to which the assumptions below are applied. */
  predicate Considered(s: Cpu) {
    true
  }

  function UnderReturn(s: Cpu, ret: nat, at: int): Cpu {
    Push(s, ret).(pc := at)
  }

  /** Runs to its successor and works the same, anywhere, under one more return address. */
  ghost predicate RspIndependent(isa: Isa, lo: int, hi: int, w: seq<byte>) {
    forall s: Cpu, ret: nat, at: int {:trigger Considered(s), UnderReturn(s, ret, at)} ::
      Settled(lo, s) && lo <= s.rsp - 8 && s.rsp <= hi ==> SameUnderReturn(isa, lo, w, s, ret, at)
  }

  ghost predicate SameUnderReturn(isa: Isa, lo: int, w: seq<byte>, s: Cpu, ret: nat, at: int) {
    var t := isa.exec(w, s);
    && t.pc == s.pc + |w| && t.rsp == s.rsp && Settled(lo, t)
    && isa.exec(w, UnderReturn(s, ret, at)) == Push(t, ret).(pc := at + |w|)
  }

  function Moved(s: Cpu, at: int): Cpu {
    s.(pc := at)
  }

  /** Runs to its successor and works the same at any address. */
  ghost predicate PcIndependent(isa: Isa, w: seq<byte>) {
    forall s: Cpu, at: int {:trigger Considered(s), Moved(s, at)} ::
      isa.exec(w, s).pc == s.pc + |w| && isa.exec(w, Moved(s, at)) == isa.exec(w, s).(pc := at + |w|)
  }

  /** Same effect, apart from where they continue. */
  ghost predicate Interchangeable(isa: Isa, v: seq<byte>, w: seq<byte>) {
    forall s: Cpu {:trigger Considered(s)} :: isa.exec(v, s).(pc := 0) == isa.exec(w, s).(pc := 0)
  }

  ghost predicate Supported(p: Program, i: nat)
    requires i < |p.list|
  {
    var ins := p.list[i];
    || (IsCall(ins) && ins.target == ins.addr + 5 + Signed32(ins.bytes[1..]))
    || (IsPlain(ins) && RspIndependent(p.isa, p.lo, p.hi, ins.bytes))
    || (IsJumpBack(ins) && PcIndependent(p.isa, ins.bytes))
  }

  /** The printed form names the operation: equal keys call the same target or have the same effect. */
  ghost predicate KeyFaithful(p: Program, i: nat, j: nat)
    requires i < |p.list| && j < |p.list|
  {
    var a, b := p.list[i], p.list[j];
    a.key == b.key ==>
      && IsCall(a) == IsCall(b) && IsPlain(a) == IsPlain(b)
      && (IsCall(a) ==> a.target == b.target)
      && (!IsCall(a) ==> Interchangeable(p.isa, a.bytes, b.bytes))
  }

  /** A key whose trampoline jumps back to one place is used at one place. */
  predicate JumpBackOnce(p: Program, i: nat, j: nat)
    requires i < |p.list| && j < |p.list|
  {
    IsJumpBack(p.list[i]) && p.list[i].key == p.list[j].key ==> i == j
  }

  ghost predicate Simulable(p: Program) {
    && (forall i :: 0 <= i < |p.list| && IsRewritten(p, i) ==> Supported(p, i))
    && (forall i, j :: 0 <= i < |p.list| && 0 <= j < |p.list| && IsRewritten(p, i) && IsRewritten(p, j) ==>
          KeyFaithful(p, i, j))
  }

  ghost predicate UniqueJumpBacks(p: Program) {
    forall i, j :: 0 <= i < |p.list| && 0 <= j < |p.list| && IsRewritten(p, i) && IsRewritten(p, j) ==>
      JumpBackOnce(p, i, j)
  }

  // ---------- Single branches ----------

  lemma BranchStep(isa: Isa, lo: int, code: Image, s: Cpu, op: byte, d: int)
    requires FitsInt32(d) && At(code, s.pc, [op] + Int32(d)) && (op == CALL || op == JMP)
    ensures op == JMP ==> Reaches(isa, lo, code, s, Forget(lo, Moved(s, s.pc + 5 + d)))
    ensures op == CALL ==> Reaches(isa, lo, code, s, Forget(lo, UnderReturn(s, Wrap(s.pc + 5), s.pc + 5 + d)))
  {
    hide At, Reaches, Forget, Int32, Signed32, Store8;
    var w := [op] + Int32(d);
    Int32RoundTrip(d);
    assert w[1..] == Int32(d);
    var t := Forget(lo, Exec(isa, w, s));
    OneStep(isa, lo, code, s, w, t);
  }

  lemma ExecRet(isa: Isa, s: Cpu, ret: nat, at: int)
    requires ret < TWO_64
    ensures Exec(isa, [RET], UnderReturn(s, ret, at)) == Push(Moved(s, ret), ret).(rsp := s.rsp)
  {
    hide Store8, Load8;
    LoadStored(s.mem, s.rsp - 8, ret);
  }

  lemma RetStep(isa: Isa, lo: int, code: Image, s: Cpu, ret: nat, at: int)
    requires Settled(lo, s) && lo <= s.rsp - 8 && ret < TWO_64
    requires At(code, at, [RET])
    ensures Reaches(isa, lo, code, UnderReturn(s, ret, at), Moved(s, ret))
  {
    ExecRet(isa, s, ret, at);
    PopForgetsPush(lo, Moved(s, ret), ret);
    OneStep(isa, lo, code, UnderReturn(s, ret, at), [RET], Moved(s, ret));
  }

  lemma ForgetMoved(lo: int, s: Cpu, at: int)
    ensures Forget(lo, Moved(Forget(lo, s), at)) == Moved(Forget(lo, s), at) == Forget(lo, Moved(s, at))
  {
  }

  // ---------- Sites with their trampolines ----------

  /** A call through a trampoline pushes the original return address and reaches the original target. */
  lemma CallSite(isa: Isa, lo: int, code: Image, s: Cpu, at: int, target: int)
    requires FitsInt32(at - s.pc - 5) && At(code, s.pc, [CALL] + Int32(at - s.pc - 5))
    requires FitsInt32(target - at - 5) && At(code, at, [JMP] + Int32(target - at - 5))
    ensures Reaches(isa, lo, code, s, Forget(lo, UnderReturn(s, Wrap(s.pc + 5), target)))
  {
    hide At, Int32, Reaches, Store8;
    var ret := Wrap(s.pc + 5);
    var u := Forget(lo, UnderReturn(s, ret, at));
    BranchStep(isa, lo, code, s, CALL, at - s.pc - 5);
    BranchStep(isa, lo, code, u, JMP, target - at - 5);
    ForgetMoved(lo, UnderReturn(s, ret, at), target);
    assert Moved(UnderReturn(s, ret, at), target) == UnderReturn(s, ret, target);
    ReachesTrans(isa, lo, code, s, u, Forget(lo, UnderReturn(s, ret, target)));
  }

  lemma PlainStep(isa: Isa, lo: int, hi: int, code: Image, s: Cpu, ret: nat, at: int, w: seq<byte>)
    requires Encodes(isa, w) && w[0] != CALL && w[0] != JMP && w[0] != RET && w[0] != NOP
    requires RspIndependent(isa, lo, hi, w) && Settled(lo, s) && lo <= s.rsp - 8 && s.rsp <= hi
    requires At(code, at, w)
    ensures Settled(lo, isa.exec(w, s)) && isa.exec(w, s).rsp == s.rsp
    ensures Reaches(isa, lo, code, UnderReturn(s, ret, at), UnderReturn(isa.exec(w, s), ret, at + |w|))
  {
    var u := UnderReturn(s, ret, at);
    var t := UnderReturn(isa.exec(w, s), ret, at + |w|);
    assert Considered(s);
    PushSettled(lo, isa.exec(w, s), ret);
    assert Settled(lo, t);
    ForgetSettled(lo, t);
    OneStep(isa, lo, code, u, w, t);
  }

  lemma EnterTrampoline(isa: Isa, lo: int, code: Image, s: Cpu, at: int)
    requires Settled(lo, s) && 0 <= s.pc && s.pc + 5 < TWO_64
    requires FitsInt32(at - s.pc - 5) && At(code, s.pc, [CALL] + Int32(at - s.pc - 5))
    ensures Reaches(isa, lo, code, s, UnderReturn(s, s.pc + 5, at))
  {
    hide At, Int32, Reaches, Store8, Forget;
    var a := UnderReturn(s, s.pc + 5, at);
    BranchStep(isa, lo, code, s, CALL, at - s.pc - 5);
    assert Wrap(s.pc + 5) == s.pc + 5;
    PushSettled(lo, s, s.pc + 5);
    assert Settled(lo, a);
    ForgetSettled(lo, a);
  }

  /** An instruction run in a trampoline ending in RET comes back to the return address. */
  lemma PlainTrampoline(isa: Isa, lo: int, hi: int, code: Image, s: Cpu, ret: nat, at: int, w: seq<byte>)
    requires Encodes(isa, w) && w[0] != CALL && w[0] != JMP && w[0] != RET && w[0] != NOP
    requires RspIndependent(isa, lo, hi, w) && Settled(lo, s) && lo <= s.rsp - 8 && s.rsp <= hi && ret < TWO_64
    requires At(code, at, w) && At(code, at + |w|, [RET])
    ensures Settled(lo, isa.exec(w, s))
    ensures Reaches(isa, lo, code, UnderReturn(s, ret, at), Moved(isa.exec(w, s), ret))
  {
    hide At, Reaches, Settled, UnderReturn, RspIndependent;
    PlainStep(isa, lo, hi, code, s, ret, at, w);
    RetStep(isa, lo, code, isa.exec(w, s), ret, at + |w|);
    ReachesTrans(isa, lo, code, UnderReturn(s, ret, at), UnderReturn(isa.exec(w, s), ret, at + |w|),
      Moved(isa.exec(w, s), ret));
  }

  /** The whole replaced site: call, trampoline, return, padding. */
  lemma PlainSite(isa: Isa, lo: int, code: Image, s: Cpu, t: Cpu, at: int, padding: seq<byte>)
    requires Settled(lo, s) && Settled(lo, t) && 0 <= s.pc && s.pc + 5 < TWO_64
    requires FitsInt32(at - s.pc - 5) && At(code, s.pc, [CALL] + Int32(at - s.pc - 5))
    requires At(code, s.pc + 5, padding) && forall k :: 0 <= k < |padding| ==> padding[k] == NOP
    requires Reaches(isa, lo, code, UnderReturn(s, s.pc + 5, at), Moved(t, s.pc + 5))
    ensures Reaches(isa, lo, code, s, Moved(t, s.pc + 5 + |padding|))
  {
    hide At, Int32, Reaches, UnderReturn;
    var c := Moved(t, s.pc + 5);
    EnterTrampoline(isa, lo, code, s, at);
    ReachesTrans(isa, lo, code, s, UnderReturn(s, s.pc + 5, at), c);
    assert Settled(lo, c);
    NopSled(isa, lo, code, c, padding);
    ReachesTrans(isa, lo, code, s, c, Moved(t, s.pc + 5 + |padding|));
  }

  /** An instruction run in a trampoline that jumps back past the head of the site at `home`. */
  lemma JumpBackSite(isa: Isa, lo: int, code: Image, s: Cpu, at: int, w: seq<byte>, home: int)
    requires Encodes(isa, w) && w[0] != CALL && w[0] != JMP && w[0] != RET && w[0] != NOP
    requires PcIndependent(isa, w) && Settled(lo, s)
    requires FitsInt32(at - s.pc - 5) && At(code, s.pc, [JMP] + Int32(at - s.pc - 5))
    requires At(code, at, w)
    requires FitsInt32(home - (at + |w|)) && At(code, at + |w|, [JMP] + Int32(home - (at + |w|)))
    ensures Reaches(isa, lo, code, s, Moved(Forget(lo, isa.exec(w, s)), home + 5))
  {
    hide At, Int32, Reaches;
    var t := Forget(lo, isa.exec(w, s));
    var a, b, c := Moved(s, at), Moved(t, at + |w|), Moved(t, home + 5);
    assert Considered(s);
    BranchStep(isa, lo, code, s, JMP, at - s.pc - 5);
    assert Settled(lo, a);
    ForgetSettled(lo, a);
    ForgetMoved(lo, isa.exec(w, s), at + |w|);
    OneStep(isa, lo, code, a, w, b);
    BranchStep(isa, lo, code, b, JMP, home - (at + |w|));
    ForgetMoved(lo, isa.exec(w, s), home + 5);
    ReachesTrans(isa, lo, code, s, a, b);
    ReachesTrans(isa, lo, code, s, b, c);
  }
}
