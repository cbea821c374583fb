/** Nothing is wasted: reserved sizes are needed by somebody, sections stand within a page of each other. */
module LayoutTight {
  import opened Common
  import opened LayoutModel
  import opened LayoutPlan
  import opened LayoutOnce

  // ---------- Sizes ----------

  predicate Has(libs: seq<Lib>, name: string) {
    exists i :: 0 <= i < |libs| && libs[i].name == name
  }

  /** Unikernel `u` has the library, with the given property. */
  ghost predicate Someone(uks: seq<seq<Lib>>, name: string, p: Lib -> bool) {
    exists u :: 0 <= u < |uks| && Own(uks[u], name).Some? && p(Own(uks[u], name).value)
  }

  lemma SomeoneInFront(uks: seq<seq<Lib>>, name: string, p: Lib -> bool)
    requires uks != [] && Someone(uks[..|uks| - 1], name, p)
    ensures Someone(uks, name, p)
  {
    var front := uks[..|uks| - 1];
    var u :| 0 <= u < |front| && Own(front[u], name).Some? && p(Own(front[u], name).value);
    assert uks[u] == front[u];
  }

  /** Each of the four sizes reserved for a library is the size of some unikernel's own copy. */
  lemma {:induction false} SizesAttained(uks: seq<seq<Lib>>, name: string)
    requires Needed(uks, name).Some?
    ensures
      var n := Needed(uks, name).value.lib;
      && Someone(uks, name, (l: Lib) => l.text == n.text) && Someone(uks, name, (l: Lib) => l.rodata == n.rodata)
      && Someone(uks, name, (l: Lib) => l.data == n.data) && Someone(uks, name, (l: Lib) => l.bss == n.bss)
  {
    var front, last := uks[..|uks| - 1], uks[|uks| - 1];
    var n := Needed(uks, name).value.lib;
    if Needed(front, name).Some? {
      SizesAttained(front, name);
      var f := Needed(front, name).value.lib;
      if f.text == n.text { SomeoneInFront(uks, name, (l: Lib) => l.text == n.text); }
      if f.rodata == n.rodata { SomeoneInFront(uks, name, (l: Lib) => l.rodata == n.rodata); }
      if f.data == n.data { SomeoneInFront(uks, name, (l: Lib) => l.data == n.data); }
      if f.bss == n.bss { SomeoneInFront(uks, name, (l: Lib) => l.bss == n.bss); }
    }
    assert uks[|uks| - 1] == last;
  }

  // ---------- Classes ----------

  function Users(uks: seq<seq<Lib>>, name: string): set<nat> {
    set u | 0 <= u < |uks| && Has(uks[u], name)
  }

  lemma UsersSplit(uks: seq<seq<Lib>>, name: string)
    requires uks != []
    ensures
      var front := uks[..|uks| - 1];
      && |front| !in Users(front, name)
      && Users(uks, name) == Users(front, name) + if Has(uks[|uks| - 1], name) then {|front|} else {}
  {
    hide Has;
    assert forall u :: 0 <= u < |uks| - 1 ==> uks[..|uks| - 1][u] == uks[u];
  }

  lemma {:induction false} OccurrenceCountsUsers(uks: seq<seq<Lib>>, name: string)
    ensures |Users(uks, name)| == if Needed(uks, name).Some? then Needed(uks, name).value.occurrence else 0
  {
    if uks != [] {
      var front, last := uks[..|uks| - 1], uks[|uks| - 1];
      OccurrenceCountsUsers(front, name);
      OwnNone(last, name);
      UsersSplit(uks, name);
    }
  }

  lemma {:induction false} SelectExactly(table: seq<Shared>, n: nat, k: Class, s: Shared)
    ensures s in Select(table, n, k) <==> s in table && ClassOf(s, n) == k
  {
    if table != [] {
      SelectExactly(table[..|table| - 1], n, k, s);
    }
  }

  /** The class of a library follows from how many unikernels have it: all, several, or one. */
  lemma ClassByUsers(c: Classes, uks: seq<seq<Lib>>, s: Shared)
    requires forall v :: 0 <= v < |uks| ==> DistinctNames(uks[v])
    requires Classified(c, uks) && s in Gather(uks)
    ensures
      var users := |Users(uks, s.lib.name)|;
      && users >= 1
      && (s in c.common <==> users == |uks|)
      && (s in c.subset <==> 1 < users && users != |uks|)
      && (s in c.individual <==> users == 1 && users != |uks|)
  {
    var table := Gather(uks);
    var i :| 0 <= i < |table| && table[i] == s;
    GatherSingle(uks, s.lib.name);
    FoundIsTheEntry(table, i);
    TableIsNeeded(uks, s.lib.name);
    NeededCovers(uks, s.lib.name);
    OccurrenceCountsUsers(uks, s.lib.name);
    SelectExactly(table, |uks|, Class.Common, s);
    SelectExactly(table, |uks|, Subset, s);
    SelectExactly(table, |uks|, Individual, s);
    InPermutation(c.common, Select(table, |uks|, Class.Common), s);
    InPermutation(c.subset, Select(table, |uks|, Subset), s);
    InPermutation(c.individual, Select(table, |uks|, Individual), s);
  }

  lemma InPermutation(a: seq<Shared>, b: seq<Shared>, s: Shared)
    requires multiset(a) == multiset(b)
    ensures s in a <==> s in b
  {
    assert s in multiset(a) <==> s in multiset(b);
  }

  // ---------- Areas ----------

  /** The counter after a round is where some unikernel ends. */
  lemma {:induction false} LongestAttained(loc: nat, libs: seq<Shared>, uks: seq<seq<Lib>>)
    requires uks != []
    ensures exists u :: 0 <= u < |uks| && LongestEnd(loc, libs, uks) == PrivateEnd(loc, libs, uks[u])
  {
    var front, last := uks[..|uks| - 1], uks[|uks| - 1];
    if front != [] && LongestEnd(loc, libs, uks) == LongestEnd(loc, libs, front) {
      LongestAttained(loc, libs, front);
      var u :| 0 <= u < |front| && LongestEnd(loc, libs, front) == PrivateEnd(loc, libs, front[u]);
      assert uks[u] == front[u];
    } else {
      assert uks[|uks| - 1] == last && LongestEnd(loc, libs, uks) == PrivateEnd(loc, libs, last);
    }
  }

  lemma {:induction false} DataAttained(uks: seq<seq<Lib>>)
    requires uks != []
    ensures exists u :: 0 <= u < |uks| && LargestData(uks) == TotalData(uks[u])
  {
    var front, last := uks[..|uks| - 1], uks[|uks| - 1];
    if front != [] && LargestData(uks) == LargestData(front) {
      DataAttained(front);
      var u :| 0 <= u < |front| && LargestData(front) == TotalData(front[u]);
      assert uks[u] == front[u];
    } else {
      assert uks[|uks| - 1] == last && LargestData(uks) == TotalData(last);
    }
  }

  lemma {:induction false} BssAttained(uks: seq<seq<Lib>>)
    requires uks != []
    ensures exists u :: 0 <= u < |uks| && LargestBss(uks) == TotalBss(uks[u])
  {
    var front, last := uks[..|uks| - 1], uks[|uks| - 1];
    if front != [] && LargestBss(uks) == LargestBss(front) {
      BssAttained(front);
      var u :| 0 <= u < |front| && LargestBss(front) == TotalBss(front[u]);
      assert uks[u] == front[u];
    } else {
      assert uks[|uks| - 1] == last && LargestBss(uks) == TotalBss(last);
    }
  }

  /** What a unikernel has in all is what its libraries have together. */
  lemma {:induction false} TotalsAdd(a: seq<Lib>, b: seq<Lib>)
    ensures TotalData(a + b) == TotalData(a) + TotalData(b) && TotalBss(a + b) == TotalBss(a) + TotalBss(b)
    ensures forall l: Lib :: TotalData([l]) == l.data && TotalBss([l]) == l.bss
  {
    forall l: Lib
      ensures TotalData([l]) == l.data && TotalBss([l]) == l.bss
    {
      assert [l][..0] == [];
    }
    if b == [] {
      assert a + b == a;
    } else {
      TotalsAdd(a, b[..|b| - 1]);
      assert (a + b)[..|a + b| - 1] == a + b[..|b| - 1];
    }
  }

  // ---------- Gaps ----------

  function End(s: Slot): nat {
    s.addr + s.size
  }

  /** From `lo` to `hi` with less than a page between neighbours, before the first and after the last. */
  ghost predicate Packed(slots: seq<Slot>, lo: nat, hi: nat) {
    && (slots == [] ==> hi < lo + PAGE_SIZE)
    && (slots != [] ==> slots[0].addr < lo + PAGE_SIZE && hi < End(slots[|slots| - 1]) + PAGE_SIZE)
    && (forall i :: 0 < i < |slots| ==> slots[i].addr < End(slots[i - 1]) + PAGE_SIZE)
  }

  lemma {:induction false} CommonPacked(loc: nat, libs: seq<Shared>)
    ensures Packed(CommonSlots(loc, libs), loc, CommonEnd(loc, libs))
    ensures libs != [] ==> CommonSlots(loc, libs) != [] && CommonSlots(loc, libs)[0].addr == loc
  {
    hide PageUp;
    if libs != [] {
      var front, last := libs[..|libs| - 1], libs[|libs| - 1];
      CommonPacked(loc, front);
      var s := Slot(last.lib.name, CommonEnd(loc, front), Size(last));
      assert CommonSlots(loc, libs) == CommonSlots(loc, front) + [s];
      assert CommonEnd(loc, libs) == PageUp(End(s));
    }
  }

  lemma {:induction false} PrivatePacked(loc: nat, libs: seq<Shared>, own: seq<Lib>)
    ensures Packed(PrivateSlots(loc, libs, own), loc, PrivateEnd(loc, libs, own))
    ensures
      var slots, end := PrivateSlots(loc, libs, own), PrivateEnd(loc, libs, own);
      end == if slots == [] then loc else End(slots[|slots| - 1])
  {
    hide PageUp;
    if libs != [] {
      var front, last := libs[..|libs| - 1], libs[|libs| - 1];
      PrivatePacked(loc, front, own);
      if Own(own, last.lib.name).Some? {
        var s := Slot(last.lib.name, PageUp(PrivateEnd(loc, front, own)), Size(last));
        assert PrivateSlots(loc, libs, own) == PrivateSlots(loc, front, own) + [s];
      } else {
        assert PrivateSlots(loc, libs, own) == PrivateSlots(loc, front, own);
      }
    }
  }

  lemma {:induction false} PrivateStart(loc: nat, libs: seq<Shared>, own: seq<Lib>)
    requires loc % PAGE_SIZE == 0
    ensures PrivateSlots(loc, libs, own) != [] ==> PrivateSlots(loc, libs, own)[0].addr == loc
  {
    if libs != [] {
      var front := libs[..|libs| - 1];
      PrivateStart(loc, front, own);
      PrivatePacked(loc, front, own);
    }
  }

  /** In each round some unikernel is packed from the counter before it to the counter after it. */
  lemma RoundPacked(loc: nat, libs: seq<Shared>, uks: seq<seq<Lib>>) returns (u: nat)
    requires uks != []
    ensures u < |uks| && Packed(RoundSlots(loc, libs, uks[u]), loc, RoundEnd(loc, libs, uks))
    ensures RoundSlots(loc, libs, uks[u]) != [] ==>
              RoundEnd(loc, libs, uks) == End(RoundSlots(loc, libs, uks[u])[|RoundSlots(loc, libs, uks[u])| - 1])
  {
    hide PrivateSlots, PrivateEnd, LongestEnd;
    u := 0;
    if libs != [] {
      LongestAttained(PageUp(loc), libs, uks);
      u :| u < |uks| && LongestEnd(PageUp(loc), libs, uks) == PrivateEnd(PageUp(loc), libs, uks[u]);
      PrivatePacked(PageUp(loc), libs, uks[u]);
      PrivateStart(PageUp(loc), libs, uks[u]);
    }
  }

  /** The whole image is tight: rounds are packed, the data areas less than a page larger than somebody's data. */
  lemma LayoutPacked(loc: nat, c: Classes, uks: seq<seq<Lib>>, dce: bool) returns (u: nat, v: nat, x: nat, y: nat)
    requires uks != []
    ensures u < |uks| && v < |uks| && x < |uks| && y < |uks|
    ensures Packed(CommonSlots(loc + 3 * PAGE_SIZE, c.common), loc + 3 * PAGE_SIZE, AfterCommon(loc, c))
    ensures Packed(RoundSlots(AfterCommon(loc, c), c.subset, uks[u]), AfterCommon(loc, c), AfterSubset(loc, c, uks))
    ensures
      var end := RoundEnd(AfterSubset(loc, c, uks), c.individual, uks);
      var data := DataBase(loc, c, uks);
      var bss := BssBase(data, uks, dce);
      && Packed(RoundSlots(AfterSubset(loc, c, uks), c.individual, uks[v]), AfterSubset(loc, c, uks), end)
      && end <= data < end + PAGE_SIZE
      && bss < data + TotalData(uks[x]) + PAGE_SIZE + (if dce then PAGE_SIZE else 0)
      && StackBase(bss, uks) < bss + TotalBss(uks[y]) + PAGE_SIZE
  {
    hide RoundSlots, RoundEnd, CommonSlots, CommonEnd, LargestData, LargestBss, TotalData, TotalBss, Packed;
    CommonPacked(loc + 3 * PAGE_SIZE, c.common);
    u := RoundPacked(AfterCommon(loc, c), c.subset, uks);
    v := RoundPacked(AfterSubset(loc, c, uks), c.individual, uks);
    DataAttained(uks);
    x :| x < |uks| && LargestData(uks) == TotalData(uks[x]);
    BssAttained(uks);
    y :| y < |uks| && LargestBss(uks) == TotalBss(uks[y]);
    AlignedSum(DataBase(loc, c, uks), PageUp(LargestData(uks)));
    AlignedSum(BssBase(DataBase(loc, c, uks), uks, dce), PageUp(LargestBss(uks)));
  }
}
