/** The placement itself and its soundness. */
module LayoutPlan {
  import opened Common
  import opened LayoutModel

  /** Code and constants of a library go into one section. */
  function Size(s: Shared): nat {
    s.lib.text + s.lib.rodata
  }

  // ---------- Libraries common to all ----------

  function CommonEnd(loc: nat, libs: seq<Shared>): nat {
    if libs == [] then loc else PageUp(CommonEnd(loc, libs[..|libs| - 1]) + Size(libs[|libs| - 1]))
  }

  function CommonSlots(loc: nat, libs: seq<Shared>): seq<Slot> {
    if libs == [] then []
    else
      var front, last := libs[..|libs| - 1], libs[|libs| - 1];
      CommonSlots(loc, front) + [Slot(last.lib.name, CommonEnd(loc, front), Size(last))]
  }

  // ---------- Libraries of one unikernel ----------

  function PrivateEnd(loc: nat, libs: seq<Shared>, own: seq<Lib>): nat {
    if libs == [] then loc
    else
      var before, last := PrivateEnd(loc, libs[..|libs| - 1], own), libs[|libs| - 1];
      if Own(own, last.lib.name).None? then before else PageUp(before) + Size(last)
  }

  function PrivateSlots(loc: nat, libs: seq<Shared>, own: seq<Lib>): seq<Slot> {
    if libs == [] then []
    else
      var front, last := libs[..|libs| - 1], libs[|libs| - 1];
      PrivateSlots(loc, front, own)
      + if Own(own, last.lib.name).None? then []
        else [Slot(last.lib.name, PageUp(PrivateEnd(loc, front, own)), Size(last))]
  }

  /** The counter after a round of private libraries: where the longest unikernel ends. */
  function LongestEnd(loc: nat, libs: seq<Shared>, uks: seq<seq<Lib>>): (r: nat)
    ensures forall u :: 0 <= u < |uks| ==> PrivateEnd(loc, libs, uks[u]) <= r
  {
    if uks == [] then 0
    else
      var before := LongestEnd(loc, libs, uks[..|uks| - 1]);
      assert forall u :: 0 <= u < |uks| - 1 ==> uks[..|uks| - 1][u] == uks[u];
      Max(before, PrivateEnd(loc, libs, uks[|uks| - 1]))
  }

  function RoundEnd(loc: nat, libs: seq<Shared>, uks: seq<seq<Lib>>): nat {
    if libs == [] then loc else LongestEnd(PageUp(loc), libs, uks)
  }

  function RoundSlots(loc: nat, libs: seq<Shared>, own: seq<Lib>): seq<Slot> {
    if libs == [] then [] else PrivateSlots(PageUp(loc), libs, own)
  }

  // ---------- Data ----------

  function TotalData(libs: seq<Lib>): nat {
    if libs == [] then 0 else TotalData(libs[..|libs| - 1]) + libs[|libs| - 1].data
  }

  function TotalBss(libs: seq<Lib>): nat {
    if libs == [] then 0 else TotalBss(libs[..|libs| - 1]) + libs[|libs| - 1].bss
  }

  function LargestData(uks: seq<seq<Lib>>): (r: nat)
    ensures forall u :: 0 <= u < |uks| ==> TotalData(uks[u]) <= r
  {
    if uks == [] then 0
    else
      assert forall u :: 0 <= u < |uks| - 1 ==> uks[..|uks| - 1][u] == uks[u];
      Max(LargestData(uks[..|uks| - 1]), TotalData(uks[|uks| - 1]))
  }

  function LargestBss(uks: seq<seq<Lib>>): (r: nat)
    ensures forall u :: 0 <= u < |uks| ==> TotalBss(uks[u]) <= r
  {
    if uks == [] then 0
    else
      assert forall u :: 0 <= u < |uks| - 1 ==> uks[..|uks| - 1][u] == uks[u];
      Max(LargestBss(uks[..|uks| - 1]), TotalBss(uks[|uks| - 1]))
  }

  // ---------- The whole plan ----------

  /** Libraries in the three classes, in the order in which they are placed. */
  datatype Classes = Classes(common: seq<Shared>, subset: seq<Shared>, individual: seq<Shared>)

  function AfterCommon(loc: nat, c: Classes): nat {
    CommonEnd(loc + 3 * PAGE_SIZE, c.common)
  }

  function AfterSubset(loc: nat, c: Classes, uks: seq<seq<Lib>>): nat {
    RoundEnd(AfterCommon(loc, c), c.subset, uks)
  }

  function DataBase(loc: nat, c: Classes, uks: seq<seq<Lib>>): nat {
    PageUp(RoundEnd(AfterSubset(loc, c, uks), c.individual, uks))
  }

  function BssBase(data: nat, uks: seq<seq<Lib>>, dce: bool): nat {
    data + PageUp(LargestData(uks)) + (if dce then PAGE_SIZE else 0)
  }

  function StackBase(bss: nat, uks: seq<seq<Lib>>): nat {
    PageUp(bss + PageUp(LargestBss(uks)))
  }

  /** Everything placed below the data of one unikernel, in address order. */
  function SlotsOf(loc: nat, c: Classes, uks: seq<seq<Lib>>, own: seq<Lib>): seq<Slot> {
    FixedSlots(loc) + CommonSlots(loc + 3 * PAGE_SIZE, c.common)
    + RoundSlots(AfterCommon(loc, c), c.subset, own) + RoundSlots(AfterSubset(loc, c, uks), c.individual, own)
  }

  function FixedSlots(loc: nat): seq<Slot> {
    [Slot("_ctors", loc, PAGE_SIZE), Slot(".init_array", loc + PAGE_SIZE, PAGE_SIZE),
      Slot("_ectors", loc + 2 * PAGE_SIZE, PAGE_SIZE)]
  }

  // ---------- Stacking ----------

  /** Page-aligned sections between `lo` and `hi`, each ending before the next begins. */
  ghost predicate Stacked(slots: seq<Slot>, lo: nat, hi: nat) {
    && lo <= hi
    && (forall i :: 0 <= i < |slots| ==>
          slots[i].addr % PAGE_SIZE == 0 && lo <= slots[i].addr && slots[i].addr + slots[i].size <= hi)
    && (forall i, j :: 0 <= i < j < |slots| ==> slots[i].addr + slots[i].size <= slots[j].addr)
  }

  lemma StackedConcat(a: seq<Slot>, lo: nat, mid: nat, b: seq<Slot>, next: nat, hi: nat)
    requires Stacked(a, lo, mid) && Stacked(b, next, hi) && mid <= next
    ensures Stacked(a + b, lo, hi)
  {
    var s := a + b;
    forall i, j | 0 <= i < j < |s|
      ensures s[i].addr + s[i].size <= s[j].addr
    {
      if i < |a| <= j {
        assert a[i].addr + a[i].size <= mid <= b[j - |a|].addr;
      }
    }
  }

  lemma StackedSnoc(a: seq<Slot>, lo: nat, mid: nat, s: Slot)
    requires Stacked(a, lo, mid) && s.addr % PAGE_SIZE == 0 && mid <= s.addr
    ensures Stacked(a + [s], lo, s.addr + s.size)
  {
    StackedConcat(a, lo, mid, [s], s.addr, s.addr + s.size);
  }

  lemma StackedUnder(a: seq<Slot>, lo: nat, hi: nat, higher: nat)
    requires Stacked(a, lo, hi) && hi <= higher
    ensures Stacked(a, lo, higher)
  {
  }

  /** No page holds bytes of two sections: the pages of the lower one come first. */
  lemma NoSharedPage(slots: seq<Slot>, lo: nat, hi: nat, i: nat, j: nat, x: nat, y: nat)
    requires Stacked(slots, lo, hi) && i < j < |slots|
    requires slots[i].addr <= x < slots[i].addr + slots[i].size && slots[j].addr <= y < slots[j].addr + slots[j].size
    ensures x / PAGE_SIZE < y / PAGE_SIZE
  {
    assert x < slots[j].addr <= y;
  }

  lemma {:induction false} CommonStacked(loc: nat, libs: seq<Shared>)
    requires loc % PAGE_SIZE == 0
    ensures CommonEnd(loc, libs) % PAGE_SIZE == 0 && Stacked(CommonSlots(loc, libs), loc, CommonEnd(loc, libs))
  {
    if libs != [] {
      var front, last := libs[..|libs| - 1], libs[|libs| - 1];
      CommonStacked(loc, front);
      var s := Slot(last.lib.name, CommonEnd(loc, front), Size(last));
      StackedSnoc(CommonSlots(loc, front), loc, CommonEnd(loc, front), s);
      StackedUnder(CommonSlots(loc, libs), loc, s.addr + s.size, CommonEnd(loc, libs));
    }
  }

  lemma {:induction false} PrivateStacked(loc: nat, libs: seq<Shared>, own: seq<Lib>)
    requires loc % PAGE_SIZE == 0
    ensures Stacked(PrivateSlots(loc, libs, own), loc, PrivateEnd(loc, libs, own))
  {
    if libs != [] {
      var front, last := libs[..|libs| - 1], libs[|libs| - 1];
      PrivateStacked(loc, front, own);
      if Own(own, last.lib.name).Some? {
        StackedSnoc(PrivateSlots(loc, front, own), loc, PrivateEnd(loc, front, own),
                    Slot(last.lib.name, PageUp(PrivateEnd(loc, front, own)), Size(last)));
      }
    }
  }

  lemma RoundStacked(loc: nat, libs: seq<Shared>, uks: seq<seq<Lib>>, u: nat)
    requires u < |uks|
    ensures Stacked(RoundSlots(loc, libs, uks[u]), loc, RoundEnd(loc, libs, uks))
  {
    if libs != [] {
      PrivateStacked(PageUp(loc), libs, uks[u]);
    }
  }

  lemma FixedStacked(loc: nat)
    requires loc % PAGE_SIZE == 0
    ensures Stacked(FixedSlots(loc), loc, loc + 3 * PAGE_SIZE)
  {
    assert (loc + PAGE_SIZE) % PAGE_SIZE == 0 && (loc + 2 * PAGE_SIZE) % PAGE_SIZE == 0;
  }

  /**
    The code of every unikernel is laid out soundly exactly when the start address given to the aligner is page-aligned;
    the data areas hold the data of every unikernel in either case.
    */
  lemma LayoutSound(loc: nat, c: Classes, uks: seq<seq<Lib>>, dce: bool, u: nat)
    requires u < |uks|
    ensures
      var data := DataBase(loc, c, uks);
      var bss := BssBase(data, uks, dce);
      var stack := StackBase(bss, uks);
      && (Stacked(SlotsOf(loc, c, uks, uks[u]), loc, data) <==> loc % PAGE_SIZE == 0)
      && data % PAGE_SIZE == 0 && bss % PAGE_SIZE == 0 && stack % PAGE_SIZE == 0
      && data + TotalData(uks[u]) + (if dce then 0x1000 else 0) <= bss && bss + TotalBss(uks[u]) <= stack
  {
    if loc % PAGE_SIZE == 0 {
      CodeStacked(loc, c, uks, u);
    } else {
      assert SlotsOf(loc, c, uks, uks[u])[0] == FixedSlots(loc)[0];
    }
    AlignedSum(DataBase(loc, c, uks), PageUp(LargestData(uks)));
  }

  lemma AlignedSum(x: nat, y: nat)
    requires x % PAGE_SIZE == 0 && y % PAGE_SIZE == 0
    ensures (x + y) % PAGE_SIZE == 0 && (x + y + PAGE_SIZE) % PAGE_SIZE == 0
  {
  }

  lemma CodeStacked(loc: nat, c: Classes, uks: seq<seq<Lib>>, u: nat)
    requires u < |uks| && loc % PAGE_SIZE == 0
    ensures Stacked(SlotsOf(loc, c, uks, uks[u]), loc, DataBase(loc, c, uks))
  {
    var start, afterCommon, afterSubset := loc + 3 * PAGE_SIZE, AfterCommon(loc, c), AfterSubset(loc, c, uks);
    var fixed, common := FixedSlots(loc), CommonSlots(start, c.common);
    var subset, individual := RoundSlots(afterCommon, c.subset, uks[u]), RoundSlots(afterSubset, c.individual, uks[u]);
    var end := RoundEnd(afterSubset, c.individual, uks);
    FixedStacked(loc);
    CommonStacked(start, c.common);
    RoundStacked(afterCommon, c.subset, uks, u);
    RoundStacked(afterSubset, c.individual, uks, u);
    StackedConcat(fixed, loc, start, common, start, afterCommon);
    StackedConcat(fixed + common, loc, afterCommon, subset, afterCommon, afterSubset);
    StackedConcat(fixed + common + subset, loc, afterSubset, individual, afterSubset, end);
    StackedUnder(fixed + common + subset + individual, loc, end, DataBase(loc, c, uks));
  }

  // ---------- Presence ----------

  ghost predicate Holds(slots: seq<Slot>, name: string, size: nat) {
    exists i :: 0 <= i < |slots| && slots[i].name == name && slots[i].size == size
  }

  lemma HoldsInConcat(a: seq<Slot>, b: seq<Slot>, name: string, size: nat)
    requires Holds(a, name, size) || Holds(b, name, size)
    ensures Holds(a + b, name, size)
  {
    if Holds(a, name, size) {
      var i :| 0 <= i < |a| && a[i].name == name && a[i].size == size;
      assert (a + b)[i] == a[i];
    } else {
      var i :| 0 <= i < |b| && b[i].name == name && b[i].size == size;
      assert (a + b)[|a| + i] == b[i];
    }
  }

  lemma {:induction false} CommonHolds(loc: nat, libs: seq<Shared>, k: nat)
    requires k < |libs|
    ensures Holds(CommonSlots(loc, libs), libs[k].lib.name, Size(libs[k]))
  {
    var front := libs[..|libs| - 1];
    var last := [Slot(libs[|libs| - 1].lib.name, CommonEnd(loc, front), Size(libs[|libs| - 1]))];
    if k < |front| {
      CommonHolds(loc, front, k);
    } else {
      assert last[0].name == libs[k].lib.name;
    }
    HoldsInConcat(CommonSlots(loc, front), last, libs[k].lib.name, Size(libs[k]));
  }

  lemma {:induction false} PrivateHolds(loc: nat, libs: seq<Shared>, own: seq<Lib>, k: nat)
    requires k < |libs| && Own(own, libs[k].lib.name).Some?
    ensures Holds(PrivateSlots(loc, libs, own), libs[k].lib.name, Size(libs[k]))
  {
    var front, last := libs[..|libs| - 1], libs[|libs| - 1];
    var added := if Own(own, last.lib.name).None? then []
      else [Slot(last.lib.name, PageUp(PrivateEnd(loc, front, own)), Size(last))];
    if k < |front| {
      PrivateHolds(loc, front, own, k);
    } else {
      assert added[0].name == libs[k].lib.name;
    }
    HoldsInConcat(PrivateSlots(loc, front, own), added, libs[k].lib.name, Size(libs[k]));
  }

  // ---------- Classes ----------

  datatype Class = Common | Subset | Individual

  /** Libraries of every unikernel, of several, of one. */
  function ClassOf(s: Shared, n: nat): Class {
    if s.occurrence == n then Common else if s.occurrence > 1 then Subset else Individual
  }

  function Select(table: seq<Shared>, n: nat, k: Class): seq<Shared> {
    if table == [] then []
    else
      var last := table[|table| - 1];
      Select(table[..|table| - 1], n, k) + if ClassOf(last, n) == k then [last] else []
  }

  /** The classes hold the gathered libraries, each class in any order. */
  ghost predicate Classified(c: Classes, uks: seq<seq<Lib>>) {
    var table := Gather(uks);
    && multiset(c.common) == multiset(Select(table, |uks|, Common))
    && multiset(c.subset) == multiset(Select(table, |uks|, Subset))
    && multiset(c.individual) == multiset(Select(table, |uks|, Individual))
  }

  lemma {:induction false} Selected(table: seq<Shared>, n: nat, s: Shared)
    requires s in table
    ensures s in Select(table, n, ClassOf(s, n))
  {
    if s in table[..|table| - 1] {
      Selected(table[..|table| - 1], n, s);
    }
  }

  lemma {:induction false} FoundIsIn(table: seq<Shared>, name: string)
    requires Find(table, name).Some?
    ensures Find(table, name).value in table
  {
    if table[0].lib.name != name {
      FoundIsIn(table[1..], name);
    }
  }

  lemma SameElements(a: seq<Shared>, b: seq<Shared>, s: Shared) returns (k: nat)
    requires multiset(a) == multiset(b) && s in b
    ensures k < |a| && a[k] == s
  {
    assert s in multiset(b);
    assert s in a;
    k :| k < |a| && a[k] == s;
  }

  /**
    Every unikernel finds each of its libraries in a section of exactly the size all its users need, which holds its own
    copy; a library of all unikernels is among the common ones.
   */
  lemma EveryLibraryPlaced(loc: nat, c: Classes, uks: seq<seq<Lib>>, u: nat, i: nat)
    requires forall v :: 0 <= v < |uks| ==> DistinctNames(uks[v])
    requires Classified(c, uks) && u < |uks| && i < |uks[u]|
    ensures
      var l := uks[u][i];
      && Needed(uks, l.name).Some?
      && var n := Needed(uks, l.name).value.lib;
      && l.text <= n.text && l.rodata <= n.rodata
      && Holds(SlotsOf(loc, c, uks, uks[u]), l.name, n.text + n.rodata)
      && ((forall v :: 0 <= v < |uks| ==> Own(uks[v], l.name).Some?) ==>
            Holds(CommonSlots(loc + 3 * PAGE_SIZE, c.common), l.name, n.text + n.rodata))
  {
    var l := uks[u][i];
    OwnIs(uks[u], i);
    TableIsNeeded(uks, l.name);
    NeededCovers(uks, l.name);
    FoundIsIn(Gather(uks), l.name);
    Selected(Gather(uks), |uks|, Needed(uks, l.name).value);
    PlacedByClass(loc, c, uks, u, Needed(uks, l.name).value);
  }

  lemma PlacedByClass(loc: nat, c: Classes, uks: seq<seq<Lib>>, u: nat, s: Shared)
    requires Classified(c, uks) && u < |uks| && s in Select(Gather(uks), |uks|, ClassOf(s, |uks|))
    requires Own(uks[u], s.lib.name).Some?
    ensures Holds(SlotsOf(loc, c, uks, uks[u]), s.lib.name, Size(s))
    ensures s.occurrence == |uks| ==> Holds(CommonSlots(loc + 3 * PAGE_SIZE, c.common), s.lib.name, Size(s))
  {
    hide Gather, Select, AfterCommon, AfterSubset, RoundSlots, CommonSlots, Holds, FixedSlots;
    var common := CommonSlots(loc + 3 * PAGE_SIZE, c.common);
    match ClassOf(s, |uks|) {
      case Common =>
        var k := SameElements(c.common, Select(Gather(uks), |uks|, Common), s);
        CommonHolds(loc + 3 * PAGE_SIZE, c.common, k);
      case Subset =>
        var k := SameElements(c.subset, Select(Gather(uks), |uks|, Subset), s);
        RoundHolds(AfterCommon(loc, c), c.subset, uks[u], k);
      case Individual =>
        var k := SameElements(c.individual, Select(Gather(uks), |uks|, Individual), s);
        RoundHolds(AfterSubset(loc, c, uks), c.individual, uks[u], k);
    }
    HoldsInFour(FixedSlots(loc), common, RoundSlots(AfterCommon(loc, c), c.subset, uks[u]),
                RoundSlots(AfterSubset(loc, c, uks), c.individual, uks[u]), s.lib.name, Size(s));
  }

  lemma RoundHolds(loc: nat, libs: seq<Shared>, own: seq<Lib>, k: nat)
    requires k < |libs| && Own(own, libs[k].lib.name).Some?
    ensures Holds(RoundSlots(loc, libs, own), libs[k].lib.name, Size(libs[k]))
  {
    PrivateHolds(PageUp(loc), libs, own, k);
  }

  lemma HoldsInFour(a: seq<Slot>, b: seq<Slot>, c: seq<Slot>, d: seq<Slot>, name: string, size: nat)
    requires Holds(b, name, size) || Holds(c, name, size) || Holds(d, name, size)
    ensures Holds(a + b + c + d, name, size)
  {
    if Holds(b, name, size) {
      HoldsInConcat(a, b, name, size);
    }
    if Holds(a + b, name, size) || Holds(c, name, size) {
      HoldsInConcat(a + b, c, name, size);
    }
    HoldsInConcat(a + b + c, d, name, size);
  }
}
