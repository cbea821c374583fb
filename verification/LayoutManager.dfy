/** The aligner's passes: gather the libraries, sort them into classes, give out addresses. */
module LayoutManager {
  import opened Common
  import opened LayoutModel
  import opened LayoutOrder
  import opened LayoutPlan

  // ---------- Passes ----------

  /** One unikernel: its library files and, per round, the sections placed for it. */
  class Unikernel {
    const libs: seq<Lib>
    var locCounter: nat
    var placed: seq<Slot>

    constructor (libs: seq<Lib>)
      ensures this.libs == libs && placed == []
    {
      this.libs, placed, locCounter := libs, [], 0;
    }

    method UpdateLocCounter(libs: seq<Shared>)
      modifies this`locCounter, this`placed
      ensures locCounter == PrivateEnd(old(locCounter), libs, this.libs)
      ensures placed == old(placed) + PrivateSlots(old(locCounter), libs, this.libs)
    {
      ghost var start, before := locCounter, placed;
      for i := 0 to |libs|
        invariant locCounter == PrivateEnd(start, libs[..i], this.libs)
        invariant placed == before + PrivateSlots(start, libs[..i], this.libs)
      {
        assert libs[..i + 1][..i] == libs[..i];
        if Own(this.libs, libs[i].lib.name).Some? {
          locCounter := PageUp(locCounter);
          placed := placed + [Slot(libs[i].lib.name, locCounter, libs[i].lib.text + libs[i].lib.rodata)];
          locCounter := locCounter + libs[i].lib.text;
          locCounter := locCounter + libs[i].lib.rodata;
        }
      }
      assert libs[..|libs|] == libs;
    }
  }

  function LibsOf(uks: seq<Unikernel>): (r: seq<seq<Lib>>)
    ensures |r| == |uks| && forall u :: 0 <= u < |uks| ==> r[u] == uks[u].libs
  {
    if uks == [] then [] else LibsOf(uks[..|uks| - 1]) + [uks[|uks| - 1].libs]
  }

  class UkManager {
    const uks: seq<Unikernel>
    const dce: bool
    var globalMaps: seq<Shared>
    var classes: Classes
    var locCounter: nat
    var common: seq<Slot>
    // Where the sections with an address of their own begin.
    var ctors: nat
    var initArray: nat
    var ectors: nat
    var data: nat
    var bss: nat
    var intrstack: nat

    /** The unikernels are distinct objects. */
    ghost predicate Separate() {
      forall i, j :: 0 <= i < j < |uks| ==> uks[i] != uks[j]
    }

    constructor (uks: seq<Unikernel>, dce: bool, loc: nat)
      ensures this.uks == uks && this.dce == dce && locCounter == loc && globalMaps == []
    {
      this.uks, this.dce, locCounter := uks, dce, loc;
      globalMaps, classes, common := [], Classes([], [], []), [];
      ctors, initArray, ectors, data, bss, intrstack := 0, 0, 0, 0, 0, 0;
    }

    method ProcessFolder()
      requires globalMaps == []
      modifies this`globalMaps
      ensures globalMaps == Gather(LibsOf(uks))
    {
      ghost var all := LibsOf(uks);
      for u := 0 to |uks|
        invariant globalMaps == Gather(all[..u])
      {
        var libs := uks[u].libs;
        ghost var before := globalMaps;
        for i := 0 to |libs|
          invariant globalMaps == AbsorbAll(before, libs[..i])
        {
          assert libs[..i + 1][..i] == libs[..i];
          globalMaps := Absorb(globalMaps, libs[i]);
        }
        assert libs[..|libs|] == libs && all[..u + 1][..u] == all[..u];
      }
      assert all[..|uks|] == all;
    }

    method ProcessMaps()
      modifies this`classes
      ensures
        && classes.common == Select(globalMaps, |uks|, Common)
        && classes.subset == Select(globalMaps, |uks|, Subset)
        && multiset(classes.individual) == multiset(Select(globalMaps, |uks|, Individual))
        && SortedBy(classes.individual, NameBelow)
    {
      var common, subset, rest := [], [], [];
      for i := 0 to |globalMaps|
        invariant common == Select(globalMaps[..i], |uks|, Common)
        invariant subset == Select(globalMaps[..i], |uks|, Subset)
        invariant rest == Select(globalMaps[..i], |uks|, Individual)
      {
        assert globalMaps[..i + 1][..i] == globalMaps[..i];
        var v := globalMaps[i];
        if v.occurrence == |uks| {
          common := common + [v];
        } else if v.occurrence > 1 {
          subset := subset + [v];
        } else {
          rest := rest + [v];
        }
      }
      assert globalMaps[..|globalMaps|] == globalMaps;
      NamesAreOrdered();
      rest := Sort(rest, NameBelow);
      classes := Classes(common, subset, rest);
    }

    method ProcessCommonToAll()
      modifies this`locCounter, this`common
      ensures locCounter == CommonEnd(old(locCounter), classes.common)
        && common == CommonSlots(old(locCounter), classes.common)
    {
      ghost var start := locCounter;
      common := [];
      var libs := classes.common;
      for i := 0 to |libs|
        invariant locCounter == CommonEnd(start, libs[..i]) && common == CommonSlots(start, libs[..i])
      {
        assert libs[..i + 1][..i] == libs[..i];
        ComputeCommonLoc(libs[i]);
      }
      assert libs[..|libs|] == libs;
    }

    method ComputeCommonLoc(s: Shared)
      modifies this`locCounter, this`common
      ensures common == old(common) + [Slot(s.lib.name, old(locCounter), Size(s))]
      ensures locCounter == PageUp(old(locCounter) + Size(s))
    {
      common := common + [Slot(s.lib.name, locCounter, s.lib.text + s.lib.rodata)];
      if s.lib.text != 0 {
        locCounter := locCounter + s.lib.text;
      }
      if s.lib.rodata != 0 {
        locCounter := locCounter + s.lib.rodata;
      }
      locCounter := PageUp(locCounter);
    }

    method ComputeLoc(libs: seq<Shared>)
      requires Separate() && (libs != [] ==> uks != [])
      modifies this`locCounter, uks`locCounter, uks`placed
      ensures locCounter == RoundEnd(old(locCounter), libs, LibsOf(uks))
      ensures forall u :: 0 <= u < |uks| ==>
        uks[u].placed == old(uks[u].placed) + RoundSlots(old(locCounter), libs, uks[u].libs)
    {
      if libs == [] {
        return;
      }
      locCounter := PageUp(locCounter);
      PlaceEach(libs);
      locCounter := LongestCounter(locCounter, libs);
    }

    method PlaceEach(libs: seq<Shared>)
      requires Separate()
      modifies uks`locCounter, uks`placed
      ensures forall u :: 0 <= u < |uks| ==>
                && uks[u].locCounter == PrivateEnd(locCounter, libs, uks[u].libs)
                && uks[u].placed == old(uks[u].placed) + PrivateSlots(locCounter, libs, uks[u].libs)
    {
      for u := 0 to |uks|
        invariant forall v :: 0 <= v < u ==>
                    && uks[v].locCounter == PrivateEnd(locCounter, libs, uks[v].libs)
                    && uks[v].placed == old(uks[v].placed) + PrivateSlots(locCounter, libs, uks[v].libs)
        invariant forall v :: u <= v < |uks| ==> uks[v].placed == old(uks[v].placed)
      {
        uks[u].locCounter := locCounter;
        uks[u].UpdateLocCounter(libs);
      }
    }

    method LongestCounter(start: nat, libs: seq<Shared>) returns (longest: nat)
      requires forall u :: 0 <= u < |uks| ==> uks[u].locCounter == PrivateEnd(start, libs, uks[u].libs)
      ensures longest == LongestEnd(start, libs, LibsOf(uks))
    {
      longest := 0;
      ghost var all := LibsOf(uks);
      for u := 0 to |uks|
        invariant longest == LongestEnd(start, libs, all[..u])
      {
        assert all[..u + 1][..u] == all[..u];
        longest := Max(longest, uks[u].locCounter);
      }
      assert all[..|uks|] == all;
    }

    method LargestTotals() returns (data: nat, bss: nat)
      ensures data == LargestData(LibsOf(uks)) && bss == LargestBss(LibsOf(uks))
    {
      data, bss := 0, 0;
      ghost var all := LibsOf(uks);
      for u := 0 to |uks|
        invariant data == LargestData(all[..u]) && bss == LargestBss(all[..u])
      {
        assert all[..u + 1][..u] == all[..u];
        data := Max(data, TotalData(uks[u].libs));
        bss := Max(bss, TotalBss(uks[u].libs));
      }
      assert all[..|uks|] == all;
    }

    /** The sections of one unikernel below its data, in address order. */
    function Script(uk: Unikernel): seq<Slot>
      reads this, uk
    {
      [Slot("_ctors", ctors, PAGE_SIZE), Slot(".init_array", initArray, PAGE_SIZE), Slot("_ectors", ectors, PAGE_SIZE)]
      + common + uk.placed
    }

    /** The whole pass: what it lays out is what `LayoutSound` and `EveryLibraryPlaced` speak about. */
    method Align() returns (ok: bool)
      requires Separate() && globalMaps == [] && (forall u :: 0 <= u < |uks| ==> uks[u].placed == [])
      modifies this, uks`locCounter, uks`placed
      ensures ok <==> uks != [] && forall u :: 0 <= u < |uks| ==> uks[u].libs != []
      ensures ok ==> Classified(classes, LibsOf(uks))
      ensures ok ==> SortedBy(classes.subset, MoreUsed) && SortedBy(classes.individual, NameBelow)
      ensures ok ==>
                && data == DataBase(old(locCounter), classes, LibsOf(uks))
                && bss == BssBase(data, LibsOf(uks), dce) && intrstack == StackBase(bss, LibsOf(uks))
      ensures ok ==> forall u :: 0 <= u < |uks| ==>
        Script(uks[u]) == SlotsOf(old(locCounter), classes, LibsOf(uks), uks[u].libs)
    {
      hide DataBase, BssBase, StackBase, SlotsOf, Gather, Select;
      ProcessFolder();
      ProcessMaps();
      ok := UpdateLinkFileSpacer();
    }

    /** Lays everything out; fails, as the source does, without unikernels or with one that has no library. */
    method UpdateLinkFileSpacer() returns (ok: bool)
      requires Separate() && (forall u :: 0 <= u < |uks| ==> uks[u].placed == [])
      modifies this`locCounter, this`classes, this`common, this`ctors, this`initArray, this`ectors, this`data,
        this`bss, this`intrstack
      modifies uks`locCounter, uks`placed
      ensures ok <==> uks != [] && forall u :: 0 <= u < |uks| ==> uks[u].libs != []
      ensures classes.common == old(classes.common) && classes.individual == old(classes.individual)
      ensures multiset(classes.subset) == multiset(old(classes.subset))
      ensures ok ==> SortedBy(classes.subset, MoreUsed)
      ensures ok ==>
                && data == DataBase(old(locCounter), classes, LibsOf(uks))
                && bss == BssBase(data, LibsOf(uks), dce) && intrstack == StackBase(bss, LibsOf(uks))
      ensures ok ==> forall u :: 0 <= u < |uks| ==>
        Script(uks[u]) == SlotsOf(old(locCounter), classes, LibsOf(uks), uks[u].libs)
    {
      hide DataBase, BssBase, StackBase, SlotsOf;
      ok := uks != [] && forall u :: 0 <= u < |uks| ==> uks[u].libs != [];
      if ok {
        PlaceCode();
        PlaceData();
      }
    }

    method PlaceCode()
      requires Separate() && uks != [] && (forall u :: 0 <= u < |uks| ==> uks[u].placed == [])
      modifies this`locCounter, this`classes, this`common, this`ctors, this`initArray, this`ectors
      modifies uks`locCounter, uks`placed
      ensures classes.common == old(classes.common) && classes.individual == old(classes.individual)
      ensures multiset(classes.subset) == multiset(old(classes.subset)) && SortedBy(classes.subset, MoreUsed)
      ensures locCounter == DataBase(old(locCounter), classes, LibsOf(uks))
      ensures forall u :: 0 <= u < |uks| ==>
        Script(uks[u]) == SlotsOf(old(locCounter), classes, LibsOf(uks), uks[u].libs)
    {
      hide RoundSlots, RoundEnd, CommonSlots, CommonEnd, PageUp;
      PlaceShared();
      PlacePrivate();
      ghost var loc, all := old(locCounter), LibsOf(uks);
      forall u | 0 <= u < |uks|
        ensures Script(uks[u]) == SlotsOf(loc, classes, all, uks[u].libs)
      {
        Regroup(FixedSlots(loc), common, RoundSlots(AfterCommon(loc, classes), classes.subset, uks[u].libs),
                RoundSlots(AfterSubset(loc, classes, all), classes.individual, uks[u].libs));
      }
    }

    method PlaceShared()
      modifies this`locCounter, this`classes, this`common, this`ctors, this`initArray, this`ectors
      ensures classes.common == old(classes.common) && classes.individual == old(classes.individual)
      ensures multiset(classes.subset) == multiset(old(classes.subset)) && SortedBy(classes.subset, MoreUsed)
      ensures ctors == old(locCounter) && initArray == ctors + PAGE_SIZE && ectors == initArray + PAGE_SIZE
      ensures common == CommonSlots(old(locCounter) + 3 * PAGE_SIZE, classes.common)
      ensures locCounter == AfterCommon(old(locCounter), classes)
    {
      PlaceFixed();
      ProcessCommonToAll();
      NamesAreOrdered();
      var subset := Sort(classes.subset, MoreUsed);
      classes := classes.(subset := subset);
    }

    method PlacePrivate()
      requires Separate() && uks != [] && (forall u :: 0 <= u < |uks| ==> uks[u].placed == [])
      modifies this`locCounter, uks`locCounter, uks`placed
      ensures
        var all, start := LibsOf(uks), old(locCounter);
        && locCounter == PageUp(RoundEnd(RoundEnd(start, classes.subset, all), classes.individual, all))
        && forall u :: 0 <= u < |uks| ==>
             uks[u].placed == RoundSlots(start, classes.subset, uks[u].libs)
                              + RoundSlots(RoundEnd(start, classes.subset, all), classes.individual, uks[u].libs)
    {
      hide RoundEnd, RoundSlots, PageUp;
      ComputeLoc(classes.subset);
      assert forall u :: 0 <= u < |uks| ==> uks[u].placed == RoundSlots(old(locCounter), classes.subset, uks[u].libs);
      ComputeLoc(classes.individual);
      locCounter := PageUp(locCounter);
    }

    method PlaceFixed()
      modifies this`locCounter, this`ctors, this`initArray, this`ectors
      ensures ctors == old(locCounter) && initArray == ctors + PAGE_SIZE && ectors == initArray + PAGE_SIZE
      ensures locCounter == ectors + PAGE_SIZE
    {
      ctors := locCounter;
      locCounter := locCounter + PAGE_SIZE;
      initArray := locCounter;
      locCounter := locCounter + PAGE_SIZE;
      ectors := locCounter;
      locCounter := locCounter + PAGE_SIZE;
    }

    method PlaceData()
      modifies this`locCounter, this`data, this`bss, this`intrstack
      ensures data == old(locCounter) && bss == BssBase(data, LibsOf(uks), dce)
        && intrstack == StackBase(bss, LibsOf(uks))
    {
      hide PageUp, LargestData, LargestBss;
      var maxData, maxBss := LargestTotals();
      data := locCounter;
      locCounter := locCounter + PageUp(maxData);
      if dce {
        locCounter := locCounter + PAGE_SIZE;
      }
      bss := locCounter;
      locCounter := locCounter + PageUp(maxBss);
      locCounter := PageUp(locCounter);
      intrstack := locCounter;
    }
  }

  lemma Regroup(a: seq<Slot>, b: seq<Slot>, c: seq<Slot>, d: seq<Slot>)
    ensures a + b + (c + d) == a + b + c + d
  {
  }
}
