/** Every unikernel gets a section for each of its libraries, once, and for no other library. */
module LayoutOnce {
  import opened Common
  import opened LayoutModel
  import opened LayoutPlan

  // ---------- Counting ----------

  function Named(slots: seq<Slot>, n: string): nat {
    if slots == [] then 0 else Named(slots[..|slots| - 1], n) + if slots[|slots| - 1].name == n then 1 else 0
  }

  function Entries(libs: seq<Shared>, n: string): nat {
    if libs == [] then 0 else Entries(libs[..|libs| - 1], n) + if libs[|libs| - 1].lib.name == n then 1 else 0
  }

  lemma {:induction false} NamedConcat(a: seq<Slot>, b: seq<Slot>, n: string)
    ensures Named(a + b, n) == Named(a, n) + Named(b, n)
  {
    if b == [] {
      assert a + b == a;
    } else {
      NamedConcat(a, b[..|b| - 1], n);
      assert (a + b)[..|a + b| - 1] == a + b[..|b| - 1];
    }
  }

  lemma {:induction false} EntriesConcat(a: seq<Shared>, b: seq<Shared>, n: string)
    ensures Entries(a + b, n) == Entries(a, n) + Entries(b, n)
  {
    if b == [] {
      assert a + b == a;
    } else {
      EntriesConcat(a, b[..|b| - 1], n);
      assert (a + b)[..|a + b| - 1] == a + b[..|b| - 1];
    }
  }

  lemma EntriesOne(s: Shared, n: string)
    ensures Entries([s], n) == if s.lib.name == n then 1 else 0
  {
    assert [s][..0] == [];
  }

  lemma Cancel(a: multiset<Shared>, b: multiset<Shared>, x: Shared)
    requires a + multiset{x} == b + multiset{x}
    ensures a == b
  {
    assert a == a + multiset{x} - multiset{x};
  }

  /** The order of a class does not matter. */
  lemma {:induction false} EntriesOfPermutation(a: seq<Shared>, b: seq<Shared>, n: string)
    requires multiset(a) == multiset(b)
    ensures Entries(a, n) == Entries(b, n)
    decreases |a|
  {
    if a == [] {
      assert |multiset(b)| == 0;
    } else {
      var last := a[|a| - 1];
      assert a == a[..|a| - 1] + [last];
      var k := SameElements(b, a, last);
      assert b == b[..k] + [last] + b[k + 1..];
      Cancel(multiset(a[..|a| - 1]), multiset(b[..k] + b[k + 1..]), last);
      EntriesOfPermutation(a[..|a| - 1], b[..k] + b[k + 1..], n);
      EntriesConcat(b[..k], b[k + 1..], n);
      EntriesConcat(b[..k] + [last], b[k + 1..], n);
      EntriesConcat(b[..k], [last], n);
      EntriesOne(last, n);
    }
  }

  // ---------- Sections per entry ----------

  lemma {:induction false} NamedCommon(loc: nat, libs: seq<Shared>, n: string)
    ensures Named(CommonSlots(loc, libs), n) == Entries(libs, n)
  {
    if libs != [] {
      var front, last := libs[..|libs| - 1], libs[|libs| - 1];
      NamedCommon(loc, front, n);
      var slot := Slot(last.lib.name, CommonEnd(loc, front), Size(last));
      assert (CommonSlots(loc, front) + [slot])[..|CommonSlots(loc, front)|] == CommonSlots(loc, front);
    }
  }

  lemma {:induction false} NamedPrivate(loc: nat, libs: seq<Shared>, own: seq<Lib>, n: string)
    ensures Named(PrivateSlots(loc, libs, own), n) == if Own(own, n).Some? then Entries(libs, n) else 0
  {
    if libs != [] {
      var front, last := libs[..|libs| - 1], libs[|libs| - 1];
      NamedPrivate(loc, front, own, n);
      if Own(own, last.lib.name).Some? {
        var slot := Slot(last.lib.name, PageUp(PrivateEnd(loc, front, own)), Size(last));
        assert (PrivateSlots(loc, front, own) + [slot])[..|PrivateSlots(loc, front, own)|]
          == PrivateSlots(loc, front, own);
      } else {
        assert PrivateSlots(loc, libs, own) == PrivateSlots(loc, front, own);
      }
    }
  }

  lemma NamedRound(loc: nat, libs: seq<Shared>, own: seq<Lib>, n: string)
    ensures Named(RoundSlots(loc, libs, own), n) == if Own(own, n).Some? then Entries(libs, n) else 0
  {
    if libs != [] {
      NamedPrivate(PageUp(loc), libs, own, n);
    }
  }

  // ---------- Entries of the table ----------

  /** A name has at most one entry, and one exactly when it can be found. */
  ghost predicate Single(table: seq<Shared>, n: string) {
    Entries(table, n) == if Find(table, n).Some? then 1 else 0
  }

  lemma EntriesHead(table: seq<Shared>, n: string)
    requires table != []
    ensures Entries(table, n) == (if table[0].lib.name == n then 1 else 0) + Entries(table[1..], n)
  {
    assert table == [table[0]] + table[1..];
    EntriesConcat([table[0]], table[1..], n);
    EntriesOne(table[0], n);
  }

  lemma {:induction false} EntriesAbsorb(table: seq<Shared>, l: Lib, n: string)
    ensures Entries(Absorb(table, l), n) == Entries(table, n) + if l.name == n && Find(table, n).None? then 1 else 0
  {
    var r := Absorb(table, l);
    EntriesHead(r, n);
    if table != [] {
      EntriesHead(table, n);
      if table[0].lib.name == l.name {
        assert r[1..] == table[1..];
      } else {
        EntriesAbsorb(table[1..], l, n);
        assert r[1..] == Absorb(table[1..], l);
      }
    } else {
      assert r[1..] == [];
    }
  }

  lemma {:induction false} AbsorbAllSingle(table: seq<Shared>, libs: seq<Lib>, n: string)
    requires Single(table, n)
    ensures Single(AbsorbAll(table, libs), n)
  {
    hide Absorb;
    if libs != [] {
      var front, last := libs[..|libs| - 1], libs[|libs| - 1];
      AbsorbAllSingle(table, front, n);
      FindAbsorb(AbsorbAll(table, front), last, n);
      EntriesAbsorb(AbsorbAll(table, front), last, n);
    }
  }

  lemma {:induction false} GatherSingle(uks: seq<seq<Lib>>, n: string)
    ensures Single(Gather(uks), n)
  {
    if uks != [] {
      GatherSingle(uks[..|uks| - 1], n);
      AbsorbAllSingle(Gather(uks[..|uks| - 1]), uks[|uks| - 1], n);
    }
  }

  lemma {:induction false} EntriesByClass(table: seq<Shared>, m: nat, n: string)
    ensures Entries(Select(table, m, Class.Common), n) + Entries(Select(table, m, Subset), n)
      + Entries(Select(table, m, Individual), n)
            == Entries(table, n)
  {
    if table != [] {
      var front, last := table[..|table| - 1], table[|table| - 1];
      EntriesByClass(front, m, n);
      EntriesConcat(Select(front, m, ClassOf(last, m)), [last], n);
      EntriesOne(last, n);
      assert forall k :: k != ClassOf(last, m) ==> Select(table, m, k) == Select(front, m, k);
    }
  }

  /** The common class holds only libraries that every unikernel has. */
  lemma {:induction false} CommonAreCommon(table: seq<Shared>, m: nat, n: string)
    requires Entries(Select(table, m, Class.Common), n) > 0
    ensures exists i :: 0 <= i < |table| && table[i].lib.name == n && table[i].occurrence == m
  {
    var front, last := table[..|table| - 1], table[|table| - 1];
    if ClassOf(last, m) == Class.Common {
      EntriesConcat(Select(front, m, Class.Common), [last], n);
      EntriesOne(last, n);
    } else {
      assert Select(table, m, Class.Common) == Select(front, m, Class.Common);
    }
    if ClassOf(last, m) != Class.Common || last.lib.name != n {
      CommonAreCommon(front, m, n);
      var i :| 0 <= i < |front| && front[i].lib.name == n && front[i].occurrence == m;
      assert table[i] == front[i];
    }
  }

  /** With one entry per name, an entry is what a search for its name finds. */
  lemma {:induction false} FoundIsTheEntry(table: seq<Shared>, i: nat)
    requires i < |table| && Entries(table, table[i].lib.name) <= 1
    ensures Find(table, table[i].lib.name) == Some(table[i])
  {
    var n := table[i].lib.name;
    EntriesHead(table, n);
    if i > 0 {
      EntryCounts(table[1..], i - 1);
      FoundIsTheEntry(table[1..], i - 1);
    }
  }

  lemma {:induction false} EntryCounts(table: seq<Shared>, i: nat)
    requires i < |table|
    ensures Entries(table, table[i].lib.name) >= 1
  {
    EntriesHead(table, table[i].lib.name);
    if i > 0 {
      EntryCounts(table[1..], i - 1);
    }
  }

  // ---------- The layout ----------

  /** The sections of libraries, without the three fixed ones. */
  function LibrarySlots(loc: nat, c: Classes, uks: seq<seq<Lib>>, own: seq<Lib>): seq<Slot> {
    SlotsOf(loc, c, uks, own)[3..]
  }

  lemma CommonOwned(c: Classes, uks: seq<seq<Lib>>, u: nat, n: string)
    requires forall v :: 0 <= v < |uks| ==> DistinctNames(uks[v])
    requires u < |uks| && Entries(Select(Gather(uks), |uks|, Class.Common), n) > 0
    ensures Own(uks[u], n).Some?
  {
    var table := Gather(uks);
    CommonAreCommon(table, |uks|, n);
    var i :| 0 <= i < |table| && table[i].lib.name == n && table[i].occurrence == |uks|;
    GatherSingle(uks, n);
    FoundIsTheEntry(table, i);
    TableIsNeeded(uks, n);
    NeededCovers(uks, n);
  }

  /** A unikernel has exactly one section for each of its libraries and none for any other name. */
  lemma PlacedOnce(loc: nat, c: Classes, uks: seq<seq<Lib>>, u: nat, n: string)
    requires forall v :: 0 <= v < |uks| ==> DistinctNames(uks[v])
    requires Classified(c, uks) && u < |uks|
    ensures Named(LibrarySlots(loc, c, uks, uks[u]), n) == if Own(uks[u], n).Some? then 1 else 0
  {
    hide Gather, Select, RoundSlots, CommonSlots, DistinctNames, AfterCommon, AfterSubset;
    var common := CommonSlots(loc + 3 * PAGE_SIZE, c.common);
    var subset := RoundSlots(AfterCommon(loc, c), c.subset, uks[u]);
    var individual := RoundSlots(AfterSubset(loc, c, uks), c.individual, uks[u]);
    assert LibrarySlots(loc, c, uks, uks[u]) == common + subset + individual;
    NamedConcat(common + subset, individual, n);
    NamedConcat(common, subset, n);
    NamedCommon(loc + 3 * PAGE_SIZE, c.common, n);
    NamedRound(AfterCommon(loc, c), c.subset, uks[u], n);
    NamedRound(AfterSubset(loc, c, uks), c.individual, uks[u], n);
    EntriesTotal(c, uks, n);
    if Own(uks[u], n).Some? {
      TableIsNeeded(uks, n);
      NeededCovers(uks, n);
    } else if Entries(Select(Gather(uks), |uks|, Class.Common), n) > 0 {
      CommonOwned(c, uks, u, n);
    }
  }

  lemma EntriesTotal(c: Classes, uks: seq<seq<Lib>>, n: string)
    requires Classified(c, uks)
    ensures Entries(c.common, n) == Entries(Select(Gather(uks), |uks|, Class.Common), n)
    ensures Entries(c.common, n) + Entries(c.subset, n) + Entries(c.individual, n)
      == if Find(Gather(uks), n).Some? then 1 else 0
  {
    hide Gather, Select;
    var table := Gather(uks);
    EntriesOfPermutation(c.common, Select(table, |uks|, Class.Common), n);
    EntriesOfPermutation(c.subset, Select(table, |uks|, Subset), n);
    EntriesOfPermutation(c.individual, Select(table, |uks|, Individual), n);
    EntriesByClass(table, |uks|, n);
    GatherSingle(uks, n);
  }
}
