/**
  The binary rewriter: every instruction whose bytes differ between unikernels is replaced by a jump of the
  same length into an indirection section, where one trampoline per operation holds the original instruction.
 */
module RewriterModel {
  import opened Common
  import opened Bytes

  const CALL: byte := 0xe8
  const JMP: byte := 0xe9
  const RET: byte := 0xc3
  const NOP: byte := 0x90
  const PUSH_IMM: byte := 0x68

  /**
    A decoded instruction. `key` is its printed form, `target` the address it mentions, `push` tells whether the
    mnemonic is push, `eligible` whether the operand filters let it be rewritten.
   */
  datatype Ins = Ins(addr: int, bytes: seq<byte>, key: string, target: int, push: bool, eligible: bool)

  /** A byte of the instruction is at an offset where the unikernels disagree. */
  predicate Touched(ins: Ins, base: int, diff: set<int>) {
    exists o :: o in diff && ins.addr <= base + o < ins.addr + |ins.bytes|
  }

  /** Shorter instructions have no room for a call and are kept. */
  predicate Rewritten(ins: Ins, base: int, diff: set<int>) {
    |ins.bytes| >= 5 && ins.eligible && Touched(ins, base, diff)
  }

  predicate MovesRsp(b: seq<byte>) {
    |b| > 5 && b[0] == 0x48 && b[1] == 0xc7 && b[2] == 0xc4
  }

  // ---------- Emitted bytes ----------

  /** An opcode followed by a 32-bit displacement; the conversion fails when the displacement does not fit. */
  function Branch(op: byte, d: int): (r: Option<seq<byte>>)
    ensures r.Some? ==> |r.value| == 5
  {
    if FitsInt32(d) then Some([op] + Int32(d)) else None
  }

  function Append(b: seq<byte>, tail: Option<seq<byte>>): Option<seq<byte>> {
    if tail.None? then None else Some(b + tail.value)
  }

  /** The trampoline emitted at `at` for the first instruction with its key. */
  function Trampoline(ins: Ins, at: int): Option<seq<byte>>
    requires |ins.bytes| >= 5
  {
    var b := ins.bytes;
    if |b| == 5 then
      if b[0] == CALL then Branch(JMP, ins.target - at - 5)
      else if b[0] == PUSH_IMM then Append(b, Branch(JMP, ins.addr - (at + 5)))
      else if b[0] == JMP then
        var jump := Branch(JMP, ins.target - at - 5);
        if jump.None? then None else Some(jump.value + [RET])
      else Some(b + [RET])
    else if MovesRsp(b) then Append(b, Branch(JMP, ins.addr - (at + |b|)))
    else Some(b + [RET])
  }

  function Nops(n: nat): seq<byte> {
    seq(n, _ => NOP)
  }

  function SiteOpcode(ins: Ins): byte {
    if |ins.bytes| == 5 then (if ins.push then JMP else CALL)
    else if MovesRsp(ins.bytes) then JMP else CALL
  }

  /** What replaces the instruction in the text: a branch to its trampoline, padded to the same length. */
  function Site(ins: Ins, at: int): (r: Option<seq<byte>>)
    requires |ins.bytes| >= 5
    ensures r.Some? ==> |r.value| == |ins.bytes|
  {
    var branch := Branch(SiteOpcode(ins), at - ins.addr - 5);
    if branch.None? then None else Some(branch.value + Nops(|ins.bytes| - 5))
  }

  // ---------- The pass ----------

  datatype Target = Target(uses: nat, addr: int)

  /** Text emitted so far, indirection section so far (starting at `start`), and the trampoline of each key. */
  datatype Pass = Pass(text: seq<byte>, ind: seq<byte>, start: int, targets: map<string, Target>)

  function Process(st: Pass, ins: Ins, rewrite: bool): Option<Pass>
    requires rewrite ==> |ins.bytes| >= 5
  {
    if !rewrite then Some(st.(text := st.text + ins.bytes))
    else if ins.key in st.targets then
      var t := st.targets[ins.key];
      var site := Site(ins, t.addr);
      if site.None? then None
      else Some(st.(text := st.text + site.value, targets := st.targets[ins.key := Target(t.uses + 1, t.addr)]))
    else
      var at := st.start + |st.ind|;
      var tramp := Trampoline(ins, at);
      var site := Site(ins, at);
      if tramp.None? || site.None? then None
      else Some(Pass(st.text + site.value, st.ind + tramp.value, st.start, st.targets[ins.key := Target(1, at)]))
  }

  function Rewrite(list: seq<Ins>, base: int, diff: set<int>, start: int): Option<Pass> {
    if list == [] then Some(Pass([], [], start, map[]))
    else
      var last := list[|list| - 1];
      var st := Rewrite(list[..|list| - 1], base, diff, start);
      if st.None? then None else Process(st.value, last, Rewritten(last, base, diff))
  }

  /** Instructions laid out one after the other from `base`. */
  ghost predicate Contiguous(list: seq<Ins>, base: int) {
    forall i :: 0 <= i < |list| ==> |list[i].bytes| > 0 && list[i].addr == base + Length(list[..i])
  }

  function Length(list: seq<Ins>): nat {
    if list == [] then 0 else Length(list[..|list| - 1]) + |list[|list| - 1].bytes|
  }

  function Text(list: seq<Ins>): (b: seq<byte>)
    ensures |b| == Length(list)
  {
    if list == [] then [] else Text(list[..|list| - 1]) + list[|list| - 1].bytes
  }

  // ---------- Where things end up ----------

  /** The text keeps its length: every piece replaces an instruction of the same size. */
  lemma {:induction false} TextLength(list: seq<Ins>, base: int, diff: set<int>, start: int)
    ensures Rewrite(list, base, diff, start).Some? ==>
              |Rewrite(list, base, diff, start).value.text| == Length(list)
                && Rewrite(list, base, diff, start).value.start == start
  {
    if list != [] {
      TextLength(list[..|list| - 1], base, diff, start);
    }
  }

  lemma SlicePrefix<T>(a: seq<T>, b: seq<T>, lo: nat, len: nat)
    requires a <= b && lo + len <= |a|
    ensures b[lo..lo + len] == a[lo..lo + len]
  {
  }

  /** `r` continues `st`: it only appends, and never moves a trampoline. */
  ghost predicate Continues(st: Pass, r: Pass) {
    && r.start == st.start && st.text <= r.text && st.ind <= r.ind
    && (forall k :: k in st.targets ==> k in r.targets && r.targets[k].addr == st.targets[k].addr)
  }

  /** The text at offset `off` is what stands for `ins`. */
  ghost predicate Stands(st: Pass, ins: Ins, rewrite: bool, off: nat) {
    && off + |ins.bytes| <= |st.text|
    && (!rewrite ==> st.text[off..off + |ins.bytes|] == ins.bytes)
    && (rewrite ==>
          && |ins.bytes| >= 5 && ins.key in st.targets
          && Site(ins, st.targets[ins.key].addr) == Some(st.text[off..off + |ins.bytes|]))
  }

  /** A trampoline for instruction `ins` starts at `at` in the section of a pass. */
  ghost predicate Holds(st: Pass, ins: Ins, at: int) {
    |ins.bytes| >= 5 &&
    var tramp := Trampoline(ins, at);
    && tramp.Some? && st.start <= at && at - st.start + |tramp.value| <= |st.ind|
    && st.ind[at - st.start..at - st.start + |tramp.value|] == tramp.value
  }

  lemma StandsOn(st: Pass, r: Pass, ins: Ins, rewrite: bool, off: nat)
    requires Continues(st, r) && Stands(st, ins, rewrite, off)
    ensures Stands(r, ins, rewrite, off)
  {
    SlicePrefix(st.text, r.text, off, |ins.bytes|);
  }

  lemma HoldsOn(st: Pass, r: Pass, ins: Ins, at: int)
    requires Continues(st, r) && Holds(st, ins, at)
    ensures Holds(r, ins, at)
  {
    SlicePrefix(st.ind, r.ind, at - st.start, |Trampoline(ins, at).value|);
  }

  lemma ProcessAppends(st: Pass, ins: Ins, rewrite: bool)
    requires rewrite ==> |ins.bytes| >= 5
    requires Process(st, ins, rewrite).Some?
    ensures
      var r := Process(st, ins, rewrite).value;
      && Continues(st, r) && |r.text| == |st.text| + |ins.bytes|
      && (forall k :: k in r.targets && k !in st.targets ==> rewrite && k == ins.key)
  {
  }

  lemma ProcessStands(st: Pass, ins: Ins, rewrite: bool)
    requires rewrite ==> |ins.bytes| >= 5
    requires Process(st, ins, rewrite).Some?
    ensures Stands(Process(st, ins, rewrite).value, ins, rewrite, |st.text|)
  {
    var r := Process(st, ins, rewrite).value;
    if rewrite {
      var site := Site(ins, r.targets[ins.key].addr).value;
      assert r.text == st.text + site;
      assert r.text[|st.text|..|st.text| + |ins.bytes|] == site;
    } else {
      assert r.text[|st.text|..|st.text| + |ins.bytes|] == ins.bytes;
    }
  }

  lemma ProcessHolds(st: Pass, ins: Ins)
    requires |ins.bytes| >= 5 && Process(st, ins, true).Some? && ins.key !in st.targets
    ensures
      var r := Process(st, ins, true).value;
      ins.key in r.targets && Holds(r, ins, r.targets[ins.key].addr)
  {
    var at := st.start + |st.ind|;
    var tramp := Trampoline(ins, at).value;
    var r := Process(st, ins, true).value;
    assert r.ind == st.ind + tramp;
    assert r.ind[|st.ind|..|st.ind| + |tramp|] == tramp;
  }

  /** The piece of the text that stands for instruction `i`. */
  lemma {:induction false} SiteInText(list: seq<Ins>, base: int, diff: set<int>, start: int, i: nat)
    requires i < |list| && Rewrite(list, base, diff, start).Some?
    ensures Stands(Rewrite(list, base, diff, start).value, list[i], Rewritten(list[i], base, diff), Length(list[..i]))
  {
    var n := |list| - 1;
    var front, last := list[..n], list[n];
    TextLength(front, base, diff, start);
    var before, st := Rewrite(front, base, diff, start).value, Rewrite(list, base, diff, start).value;
    var rewrite := Rewritten(last, base, diff);
    if i < n {
      SiteInText(front, base, diff, start, i);
      ProcessAppends(before, last, rewrite);
      assert front[..i] == list[..i];
      StandsOn(before, st, list[i], Rewritten(list[i], base, diff), Length(list[..i]));
    } else {
      ProcessStands(before, last, rewrite);
    }
  }

  /** The trampoline of a key is the one emitted for the first rewritten instruction with that key. */
  lemma {:induction false} TrampolineInSection(list: seq<Ins>, base: int, diff: set<int>, start: int, key: string)
    returns (j: nat)
    requires Rewrite(list, base, diff, start).Some? && key in Rewrite(list, base, diff, start).value.targets
    ensures j < |list| && Rewritten(list[j], base, diff) && list[j].key == key
    ensures forall i :: 0 <= i < j && Rewritten(list[i], base, diff) ==> list[i].key != key
    ensures
      var st := Rewrite(list, base, diff, start).value;
      Holds(st, list[j], st.targets[key].addr)
  {
    var n := |list| - 1;
    var front, last := list[..n], list[n];
    var before, st := Rewrite(front, base, diff, start).value, Rewrite(list, base, diff, start).value;
    var rewrite := Rewritten(last, base, diff);
    ProcessAppends(before, last, rewrite);
    assert forall i :: 0 <= i < n ==> front[i] == list[i];
    if key in before.targets {
      j := TrampolineInSection(front, base, diff, start, key);
      HoldsOn(before, st, list[j], st.targets[key].addr);
    } else {
      j := n;
      KeysAreKnown(front, base, diff, start);
      ProcessHolds(before, last);
    }
  }

  lemma {:induction false} KeysAreKnown(list: seq<Ins>, base: int, diff: set<int>, start: int)
    requires Rewrite(list, base, diff, start).Some?
    ensures forall i :: 0 <= i < |list| && Rewritten(list[i], base, diff) ==>
              list[i].key in Rewrite(list, base, diff, start).value.targets
  {
    if list != [] {
      KeysAreKnown(list[..|list| - 1], base, diff, start);
    }
  }
}
