/** The emitted bytes read back: what stands at each place of the text and where trampolines lead. */
module RewriterPieces {
  import opened Common
  import opened Bytes
  import opened RewriterModel

  /** Where a branch of five bytes at `at` leads. */
  function Lands(at: int, branch: seq<byte>): int
    requires |branch| == 5
  {
    at + 5 + Signed32(branch[1..])
  }

  lemma BranchLands(op: byte, at: int, d: int)
    ensures Branch(op, d).Some? <==> -0x8000_0000 <= d <= 0x7fff_ffff
    ensures Branch(op, d).Some? ==>
              |Branch(op, d).value| == 5 && Branch(op, d).value[0] == op && Lands(at, Branch(op, d).value) == at + 5 + d
  {
    if FitsInt32(d) {
      Int32RoundTrip(d);
      assert ([op] + Int32(d))[1..] == Int32(d);
    }
  }

  /** The first three bytes of a move of a constant to the stack pointer. */
  predicate StackMove(b: seq<byte>) {
    |b| > 5 && b[..3] == [0x48, 0xc7, 0xc4]
  }

  /**
    What a trampoline does, from its bytes: calls and jumps go on to their target, a push of a constant and a move to
    the stack pointer are followed by a jump past the head of their site, anything else by a return.
   */
  lemma TrampolineLands(ins: Ins, at: int)
    requires |ins.bytes| >= 5 && Trampoline(ins, at).Some?
    ensures
      var t, n := Trampoline(ins, at).value, |ins.bytes|;
      if n == 5 && ins.bytes[0] in {0xe8, 0xe9} then
        && |t| >= 5 && t[0] == 0xe9 && Lands(at, t[..5]) == ins.target
        && t[5..] == if ins.bytes[0] == 0xe9 then [0xc3] else []
      else if (n == 5 && ins.bytes[0] == 0x68) || StackMove(ins.bytes) then
        |t| == n + 5 && t[..n] == ins.bytes && t[n] == 0xe9 && Lands(at + n, t[n..]) == ins.addr + 5
      else t == ins.bytes + [0xc3]
  {
    var b, t := ins.bytes, Trampoline(ins, at).value;
    assert StackMove(b) <==> MovesRsp(b);
    if |b| == 5 && (b[0] == 0xe8 || b[0] == 0xe9) {
      BranchLands(JMP, at, ins.target - at - 5);
      assert t[..5] == Branch(JMP, ins.target - at - 5).value;
    } else if (|b| == 5 && b[0] == 0x68) || MovesRsp(b) {
      BranchLands(JMP, at + |b|, ins.addr - (at + |b|));
      assert t[|b|..] == Branch(JMP, ins.addr - (at + |b|)).value;
    }
  }

  lemma SiteLands(ins: Ins, at: int)
    requires |ins.bytes| >= 5 && Site(ins, at).Some?
    ensures
      var piece, n := Site(ins, at).value, |ins.bytes|;
      && |piece| == n && Lands(ins.addr, piece[..5]) == at
      && piece[0] == (if (n == 5 && ins.push) || StackMove(ins.bytes) then 0xe9 else 0xe8)
      && forall k :: 5 <= k < n ==> piece[k] == 0x90
  {
    var piece, d := Site(ins, at).value, at - ins.addr - 5;
    assert StackMove(ins.bytes) <==> MovesRsp(ins.bytes);
    BranchLands(SiteOpcode(ins), ins.addr, d);
    assert piece[..5] == Branch(SiteOpcode(ins), d).value;
  }

  /**
    What stands in the text at `off`: if the instruction is eligible, has room for a branch and a byte of it is at a
    differing offset, then a branch to the trampoline of its key and padding; otherwise its own bytes.
   */
  ghost predicate Replaced(st: Pass, ins: Ins, base: int, diff: set<int>, off: nat) {
    var n := |ins.bytes|;
    && off + n <= |st.text|
    && var piece := st.text[off..off + n];
    if ins.eligible && n >= 5 && exists o :: o in diff && ins.addr <= base + o < ins.addr + n then
      && piece[0] == (if (n == 5 && ins.push) || StackMove(ins.bytes) then 0xe9 else 0xe8)
      && ins.key in st.targets && Lands(ins.addr, piece[..5]) == st.targets[ins.key].addr
      && forall k :: 5 <= k < n ==> piece[k] == 0x90
    else piece == ins.bytes
  }

  lemma PieceExactly(list: seq<Ins>, base: int, diff: set<int>, start: int, i: nat)
    requires i < |list| && Rewrite(list, base, diff, start).Some?
    ensures Replaced(Rewrite(list, base, diff, start).value, list[i], base, diff, Length(list[..i]))
    ensures |Rewrite(list, base, diff, start).value.text| == Length(list)
  {
    TextLength(list, base, diff, start);
    SiteInText(list, base, diff, start, i);
    if Rewritten(list[i], base, diff) {
      SiteLands(list[i], Rewrite(list, base, diff, start).value.targets[list[i].key].addr);
    }
  }

  // ---------- Uses of a trampoline ----------

  /** The rewritten instructions with a key. */
  ghost function Sites(list: seq<Ins>, base: int, diff: set<int>, key: string): set<nat> {
    set i: nat | i < |list| && Rewritten(list[i], base, diff) && list[i].key == key
  }

  lemma SitesSplit(list: seq<Ins>, base: int, diff: set<int>, key: string)
    requires list != []
    ensures
      var front, last := list[..|list| - 1], list[|list| - 1];
      && |front| !in Sites(front, base, diff, key)
      && Sites(list, base, diff, key)
         == Sites(front, base, diff, key) + if Rewritten(last, base, diff) && last.key == key then {|front|} else {}
  {
    hide Rewritten;
    assert forall i :: 0 <= i < |list| - 1 ==> list[..|list| - 1][i] == list[i];
  }

  /** A key is recorded exactly if it has a site, and with the number of its sites. */
  lemma {:induction false} UsesCounted(list: seq<Ins>, base: int, diff: set<int>, start: int, key: string)
    requires Rewrite(list, base, diff, start).Some?
    ensures
      var targets, sites := Rewrite(list, base, diff, start).value.targets, Sites(list, base, diff, key);
      (key in targets <==> sites != {}) && (key in targets ==> targets[key].uses == |sites|)
  {
    hide Rewritten, Trampoline, Site;
    if list != [] {
      UsesCounted(list[..|list| - 1], base, diff, start, key);
      hide Sites;
      SitesSplit(list, base, diff, key);
    } else {
      assert Sites(list, base, diff, key) == {};
    }
  }
}
