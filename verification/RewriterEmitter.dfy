/** The rewriter as it runs: an indirection section growing in place and a loop over the instructions. */
module RewriterEmitter {
  import opened Common
  import opened Bytes
  import opened RewriterModel
  import opened RewriterPieces

  /** A method returning false stands for the exception raised when a displacement does not fit. */
  class SectionInd {
    const start: int
    var addr: int
    var bt: seq<byte>

    ghost predicate Valid()
      reads this
    {
      addr == start + |bt|
    }

    constructor (addr: int)
      ensures Valid() && start == addr && bt == []
    {
      start := addr;
      this.addr := addr;
      bt := [];
    }

    method AddInsBytesRet(op: byte)
      requires Valid()
      modifies this
      ensures Valid() && bt == old(bt) + [op]
    {
      addr := addr + 1;
      bt := bt + [op];
    }

    method AddInsBytes(op: byte, to: int, offset: int) returns (ok: bool)
      requires Valid()
      modifies this
      ensures Valid()
      ensures ok == Branch(op, to - old(addr) - offset).Some?
      ensures bt == old(bt) + (if ok then Branch(op, to - old(addr) - offset).value else [])
    {
      var d := -(addr - to) - offset;
      if !FitsInt32(d) { return false; }
      bt := bt + ([op] + Int32(d));
      addr := addr + 5;
      return true;
    }

    method AddIndBytes(ins: Ins) returns (ok: bool)
      requires Valid() && |ins.bytes| == 5
      modifies this
      ensures Valid()
      ensures ok == Trampoline(ins, old(addr)).Some?
      ensures ok ==> bt == old(bt) + Trampoline(ins, old(addr)).value
    {
      var op := ins.bytes[0];
      if op == CALL {
        ok := AddInsBytes(JMP, ins.target, 5);
      } else if op == PUSH_IMM {
        bt := bt + ins.bytes;
        addr := addr + 5;
        ok := AddInsBytes(JMP, ins.addr, 0);
      } else if op == JMP {
        ok := AddInsBytes(op, ins.target, 5);
        if ok { AddInsBytesRet(RET); }
      } else {
        bt := bt + ins.bytes;
        addr := addr + 5;
        AddInsBytesRet(RET);
        ok := true;
      }
    }

    method AddIndBytesBiggerJMP(ins: Ins) returns (ok: bool)
      requires Valid() && MovesRsp(ins.bytes)
      modifies this
      ensures Valid()
      ensures ok == Trampoline(ins, old(addr)).Some?
      ensures ok ==> bt == old(bt) + Trampoline(ins, old(addr)).value
    {
      bt := bt + ins.bytes;
      addr := addr + |ins.bytes|;
      ok := AddInsBytes(JMP, ins.addr, 0);
    }

    method AddIndBytesBigger(ins: Ins)
      requires Valid() && |ins.bytes| > 5 && !MovesRsp(ins.bytes)
      modifies this
      ensures Valid() && Trampoline(ins, old(addr)).Some?
      ensures bt == old(bt) + Trampoline(ins, old(addr)).value
    {
      bt := bt + ins.bytes;
      addr := addr + |ins.bytes|;
      AddInsBytesRet(RET);
    }
  }

  class Section {
    const base: int
    const ind: SectionInd
    var dataTarget: map<string, Target>

    constructor (base: int, ind: SectionInd)
      ensures this.base == base && this.ind == ind && dataTarget == map[]
    {
      this.base := base;
      this.ind := ind;
      dataTarget := map[];
    }

    ghost function View(text: seq<byte>): Pass
      reads this, ind
    {
      Pass(text, ind.bt, ind.start, dataTarget)
    }

    method EmitTrampoline(ins: Ins) returns (ok: bool)
      requires ind.Valid() && |ins.bytes| >= 5
      modifies ind
      ensures ind.Valid()
      ensures ok == Trampoline(ins, old(ind.addr)).Some?
      ensures ok ==> ind.bt == old(ind.bt) + Trampoline(ins, old(ind.addr)).value
    {
      if |ins.bytes| == 5 {
        ok := ind.AddIndBytes(ins);
      } else if MovesRsp(ins.bytes) {
        ok := ind.AddIndBytesBiggerJMP(ins);
      } else {
        ind.AddIndBytesBigger(ins);
        ok := true;
      }
    }

    /** The bytes that replace one instruction, or nothing when a displacement does not fit. */
    method ProcessInstruction(ins: Ins, ghost text: seq<byte>) returns (site: Option<seq<byte>>)
      requires ind.Valid() && |ins.bytes| >= 5
      modifies this, ind
      ensures ind.Valid()
      ensures site.Some? == Process(old(View(text)), ins, true).Some?
      ensures site.Some? ==> Process(old(View(text)), ins, true) == Some(View(text + site.value))
    {
      var at := ind.addr;
      if ins.key !in dataTarget {
        var ok := EmitTrampoline(ins);
        if !ok { return None; }
        dataTarget := dataTarget[ins.key := Target(1, at)];
      } else {
        var t := dataTarget[ins.key];
        at := t.addr;
        dataTarget := dataTarget[ins.key := Target(t.uses + 1, t.addr)];
      }
      var d := at - ins.addr - 5;
      if !FitsInt32(d) { return None; }
      var op :=
        if |ins.bytes| == 5 then (if ins.push then JMP else CALL)
        else if MovesRsp(ins.bytes) then JMP else CALL;
      var padding := seq(|ins.bytes| - 5, _ => NOP);
      return Some([op] + Int32(d) + padding);
    }

    /** The loop over the decoded instructions of the section. */
    method Disassemble(list: seq<Ins>, diff: set<int>) returns (text: Option<seq<byte>>)
      requires ind.Valid() && ind.bt == [] && dataTarget == map[]
      modifies this, ind
      ensures text.Some? == Rewrite(list, base, diff, ind.start).Some?
      ensures text.Some? ==> Rewrite(list, base, diff, ind.start) == Some(View(text.value))
      ensures text.Some? ==> forall i :: 0 <= i < |list| ==>
        Replaced(View(text.value), list[i], base, diff, Length(list[..i]))
    {
      hide Replaced;
      var bt: seq<byte> := [];
      var i := 0;
      while i < |list|
        invariant 0 <= i <= |list| && ind.Valid()
        invariant Rewrite(list[..i], base, diff, ind.start) == Some(View(bt))
      {
        assert list[..i + 1][..i] == list[..i];
        var ins := list[i];
        if Rewritten(ins, base, diff) {
          var site := ProcessInstruction(ins, bt);
          if site.None? {
            RewriteFailsEarly(list, base, diff, ind.start, i + 1);
            return None;
          }
          bt := bt + site.value;
        } else {
          bt := bt + ins.bytes;
        }
        i := i + 1;
      }
      assert list[..i] == list;
      forall k | 0 <= k < |list|
        ensures Replaced(View(bt), list[k], base, diff, Length(list[..k]))
      {
        PieceExactly(list, base, diff, ind.start, k);
      }
      return Some(bt);
    }
  }

  lemma {:induction false} RewriteFailsEarly(list: seq<Ins>, base: int, diff: set<int>, start: int, n: nat)
    requires n <= |list| && Rewrite(list[..n], base, diff, start).None?
    ensures Rewrite(list, base, diff, start).None?
    decreases |list|
  {
    if n < |list| {
      assert list[..|list| - 1][..n] == list[..n];
      RewriteFailsEarly(list[..|list| - 1], base, diff, start, n);
    } else {
      assert list[..n] == list;
    }
  }
}
