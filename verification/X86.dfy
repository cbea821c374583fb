/**
  A machine for the branches the rewriter emits. Near CALL, JMP and RET follow their entries in chapters 3 and 4
  of the Intel instruction set reference; every other instruction is a parameter.

  Memory below the stack pointer, down to `lo`, is forgotten after each step: an interrupt may overwrite it at any
  moment, so no program can rely on it. Code is fetched from its own image.
 */
module X86 {
  import opened Common
  import opened Bytes

  datatype Cpu = Cpu(pc: int, rsp: int, regs: map<string, int>, mem: map<int, byte>)

  /** Which byte strings are instructions, and what they do, apart from CALL, JMP, RET and NOP. */
  datatype Isa = Isa(valid: seq<byte> -> bool, exec: (seq<byte>, Cpu) -> Cpu)

  predicate Encodes(isa: Isa, w: seq<byte>) {
    |w| > 0 &&
    if w[0] == 0xe8 || w[0] == 0xe9 then |w| == 5
    else if w[0] == 0xc3 || w[0] == 0x90 then |w| == 1
    else isa.valid(w)
  }

  /** An instruction is recognised from its own bytes: none is a proper prefix of another. */
  ghost predicate PrefixFree(isa: Isa) {
    forall v, w :: Encodes(isa, v) && Encodes(isa, w) && v <= w ==> v == w
  }

  function Store8(mem: map<int, byte>, a: int, v: nat): map<int, byte> {
    Place(mem, a, LittleEndian(v, 8))
  }

  function Load(mem: map<int, byte>, a: int): byte {
    if a in mem then mem[a] else 0
  }

  function Load8(mem: map<int, byte>, a: int): nat {
    FromLittleEndian([Load(mem, a), Load(mem, a + 1), Load(mem, a + 2), Load(mem, a + 3),
                      Load(mem, a + 4), Load(mem, a + 5), Load(mem, a + 6), Load(mem, a + 7)])
  }

  function Push(s: Cpu, v: nat): Cpu {
    s.(rsp := s.rsp - 8, mem := Store8(s.mem, s.rsp - 8, v))
  }

  function Exec(isa: Isa, w: seq<byte>, s: Cpu): Cpu
    requires Encodes(isa, w)
  {
    if w[0] == 0xe8 then Push(s, Wrap(s.pc + 5)).(pc := s.pc + 5 + Signed32(w[1..]))
    else if w[0] == 0xe9 then s.(pc := s.pc + 5 + Signed32(w[1..]))
    else if w[0] == 0xc3 then s.(pc := Load8(s.mem, s.rsp), rsp := s.rsp + 8)
    else if w[0] == 0x90 then s.(pc := s.pc + 1)
    else isa.exec(w, s)
  }

  function Wrap(a: int): nat {
    a % TWO_64
  }

  function Forget(lo: int, s: Cpu): Cpu {
    s.(mem := map a | a in s.mem && !(lo <= a < s.rsp) :: s.mem[a])
  }

  /** Nothing is remembered below the stack pointer. */
  ghost predicate Settled(lo: int, s: Cpu) {
    forall a :: lo <= a < s.rsp ==> a !in s.mem
  }

  ghost predicate StepVia(isa: Isa, lo: int, code: Image, s: Cpu, w: seq<byte>, t: Cpu) {
    Encodes(isa, w) && At(code, s.pc, w) && t == Forget(lo, Exec(isa, w, s))
  }

  ghost predicate Step(isa: Isa, lo: int, code: Image, s: Cpu, t: Cpu) {
    exists w :: StepVia(isa, lo, code, s, w, t)
  }

  ghost function StepOf(isa: Isa, lo: int, code: Image): (Cpu, Cpu) -> bool {
    (s: Cpu, t: Cpu) => Step(isa, lo, code, s, t)
  }

  /** `t` follows from `s` in `n` steps of a relation. */
  ghost predicate Chain<T(!new)>(r: (T, T) -> bool, s: T, n: nat, t: T) {
    if n == 0 then s == t else exists u :: r(s, u) && Chain(r, u, n - 1, t)
  }

  lemma {:induction false} ChainConcat<T(!new)>(r: (T, T) -> bool, s: T, m: nat, u: T, n: nat, t: T)
    requires Chain(r, s, m, u) && Chain(r, u, n, t)
    ensures Chain(r, s, m + n, t)
    decreases m
  {
    if m > 0 {
      var v :| r(s, v) && Chain(r, v, m - 1, u);
      ChainConcat(r, v, m - 1, u, n, t);
      assert Chain(r, v, m + n - 1, t);
    }
  }

  /** `t` follows from `s` in one step or more. */
  ghost predicate Reaches(isa: Isa, lo: int, code: Image, s: Cpu, t: Cpu) {
    exists n: nat :: n > 0 && Chain(StepOf(isa, lo, code), s, n, t)
  }

  lemma ReachesTrans(isa: Isa, lo: int, code: Image, s: Cpu, u: Cpu, t: Cpu)
    requires Reaches(isa, lo, code, s, u) && (u == t || Reaches(isa, lo, code, u, t))
    ensures Reaches(isa, lo, code, s, t)
  {
    if u != t {
      var r := StepOf(isa, lo, code);
      var m: nat :| m > 0 && Chain(r, s, m, u);
      var n: nat :| n > 0 && Chain(r, u, n, t);
      ChainConcat(r, s, m, u, n, t);
    }
  }

  lemma OneStep(isa: Isa, lo: int, code: Image, s: Cpu, w: seq<byte>, t: Cpu)
    requires StepVia(isa, lo, code, s, w, t)
    ensures Reaches(isa, lo, code, s, t)
  {
    var r := StepOf(isa, lo, code);
    assert r(s, t) && Chain(r, t, 0, t);
    assert Chain(r, s, 1, t);
  }

  /** Two instructions that can be fetched at the same place are the same. */
  lemma FetchUnique(isa: Isa, code: Image, pc: int, v: seq<byte>, w: seq<byte>)
    requires PrefixFree(isa) && Encodes(isa, v) && Encodes(isa, w) && At(code, pc, v) && At(code, pc, w)
    ensures v == w
  {
    assert forall k :: 0 <= k < |v| && k < |w| ==> v[k] == code[pc + k] == w[k];
    assert v <= w || w <= v;
  }

  // ---------- The stack discipline of a trampoline ----------

  lemma ForgetSettled(lo: int, s: Cpu)
    requires Settled(lo, s)
    ensures Forget(lo, s) == s
  {
    assert Forget(lo, s).mem == s.mem;
  }

  lemma PushSettled(lo: int, s: Cpu, v: nat)
    requires Settled(lo, s)
    ensures Settled(lo, Push(s, v))
  {
  }

  lemma LoadByte(mem: map<int, byte>, a: int, v: nat, k: nat)
    requires k < 8
    ensures Load(Store8(mem, a, v), a + k) == LittleEndian(v, 8)[k]
  {
    hide LittleEndian;
  }

  lemma LoadStored(mem: map<int, byte>, a: int, v: nat)
    requires v < TWO_64
    ensures Load8(Store8(mem, a, v), a) == v
  {
    var b := LittleEndian(v, 8);
    var stored := Store8(mem, a, v);
    hide Store8, LittleEndian, FromLittleEndian, Load;
    forall k: nat | k < 8
      ensures Load(stored, a + k) == b[k]
    {
      LoadByte(mem, a, v, k);
    }
    assert [Load(stored, a + 0), Load(stored, a + 1), Load(stored, a + 2), Load(stored, a + 3),
            Load(stored, a + 4), Load(stored, a + 5), Load(stored, a + 6), Load(stored, a + 7)] == b;
    Pow256Values();
    LittleEndianRoundTrip(v, 8);
  }

  /** Popping what was pushed gives the state back: the slot falls below the stack pointer and is forgotten. */
  lemma PopForgetsPush(lo: int, s: Cpu, v: nat)
    requires Settled(lo, s) && lo <= s.rsp - 8
    ensures Forget(lo, Push(s, v).(rsp := s.rsp)) == s
  {
    var t := Push(s, v).(rsp := s.rsp);
    assert Forget(lo, t).mem == s.mem;
  }

  lemma {:induction false} NopSled(isa: Isa, lo: int, code: Image, s: Cpu, sled: seq<byte>)
    requires Settled(lo, s) && At(code, s.pc, sled) && forall k :: 0 <= k < |sled| ==> sled[k] == 0x90
    ensures sled != [] ==> Reaches(isa, lo, code, s, s.(pc := s.pc + |sled|))
    decreases |sled|
  {
    if sled != [] {
      var t := s.(pc := s.pc + 1);
      ForgetSettled(lo, t);
      AtSlice(code, s.pc, sled, 0, 1);
      assert StepVia(isa, lo, code, s, sled[0..1], t);
      OneStep(isa, lo, code, s, sled[0..1], t);
      AtSlice(code, s.pc, sled, 1, |sled|);
      NopSled(isa, lo, code, t, sled[1..]);
      ReachesTrans(isa, lo, code, s, t, s.(pc := s.pc + |sled|));
    }
  }
}
