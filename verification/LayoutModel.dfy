/** Where the aligner puts library sections: shared libraries once, the others per unikernel, all on page boundaries. */
module LayoutModel {
  import opened Common

  datatype Lib = Lib(name: string, text: nat, rodata: nat, data: nat, bss: nat)
  /** A library as the aligner sees it over all unikernels: largest sizes and number of users. */
  datatype Shared = Shared(lib: Lib, occurrence: nat)
  /** A section reserved in the link script. */
  datatype Slot = Slot(name: string, addr: nat, size: nat)

  /** The smallest multiple of `base` that is at least `x`. */
  function RoundTo(x: nat, base: nat): (r: nat)
    ensures base > 0 ==> r % base == 0 && x <= r < x + base
    ensures base == 0 ==> r == 0
  {
    if base == 0 then 0
    else
      var q := (x + base - 1) / base;
      Multiple(q, base);
      base * q
  }

  lemma Multiple(q: nat, base: nat)
    requires base > 0
    ensures base * q % base == 0
  {
    var d := q - base * q / base;
    assert d * base == base * q % base;
  }

  function PageUp(x: nat): (r: nat)
    ensures r % PAGE_SIZE == 0 && x <= r < x + PAGE_SIZE
    ensures x % PAGE_SIZE == 0 ==> r == x
  {
    RoundTo(x, PAGE_SIZE)
  }

  function Max(a: nat, b: nat): nat {
    if a < b then b else a
  }

  // ---------- Gathering the libraries of all unikernels ----------

  function Larger(s: Shared, l: Lib): Shared {
    Shared(Lib(s.lib.name, Max(s.lib.text, l.text), Max(s.lib.rodata, l.rodata),
               Max(s.lib.data, l.data), Max(s.lib.bss, l.bss)),
           s.occurrence + 1)
  }

  /** The table in insertion order after one more library file. */
  function Absorb(table: seq<Shared>, l: Lib): seq<Shared> {
    if table == [] then [Shared(l, 1)]
    else if table[0].lib.name == l.name then [Larger(table[0], l)] + table[1..]
    else [table[0]] + Absorb(table[1..], l)
  }

  function AbsorbAll(table: seq<Shared>, libs: seq<Lib>): seq<Shared> {
    if libs == [] then table else Absorb(AbsorbAll(table, libs[..|libs| - 1]), libs[|libs| - 1])
  }

  function Gather(uks: seq<seq<Lib>>): seq<Shared> {
    if uks == [] then [] else AbsorbAll(Gather(uks[..|uks| - 1]), uks[|uks| - 1])
  }

  function Find(table: seq<Shared>, name: string): Option<Shared> {
    if table == [] then None else if table[0].lib.name == name then Some(table[0]) else Find(table[1..], name)
  }

  function Own(libs: seq<Lib>, name: string): Option<Lib> {
    if libs == [] then None
    else if libs[|libs| - 1].name == name then Some(libs[|libs| - 1]) else Own(libs[..|libs| - 1], name)
  }

  /** What all unikernels together need of one library, independently of the table. */
  function Needed(uks: seq<seq<Lib>>, name: string): Option<Shared> {
    if uks == [] then None
    else
      var before, own := Needed(uks[..|uks| - 1], name), Own(uks[|uks| - 1], name);
      if own.None? then before else if before.None? then Some(Shared(own.value, 1))
        else Some(Larger(before.value, own.value))
  }

  predicate DistinctNames(libs: seq<Lib>) {
    forall i, j :: 0 <= i < j < |libs| ==> libs[i].name != libs[j].name
  }

  lemma {:induction false} FindAbsorb(table: seq<Shared>, l: Lib, name: string)
    ensures Find(Absorb(table, l), name)
            == if l.name != name then Find(table, name)
               else if Find(table, name).None? then Some(Shared(l, 1)) else Some(Larger(Find(table, name).value, l))
  {
    if table != [] && table[0].lib.name != l.name {
      FindAbsorb(table[1..], l, name);
      assert Absorb(table, l)[1..] == Absorb(table[1..], l);
    } else if table != [] {
      assert Absorb(table, l)[1..] == table[1..];
    }
  }

  lemma {:induction false} OwnIs(libs: seq<Lib>, i: nat)
    requires DistinctNames(libs) && i < |libs|
    ensures Own(libs, libs[i].name) == Some(libs[i])
  {
    if i < |libs| - 1 {
      OwnIs(libs[..|libs| - 1], i);
    }
  }

  lemma {:induction false} OwnNone(libs: seq<Lib>, name: string)
    ensures Own(libs, name).None? <==> forall i :: 0 <= i < |libs| ==> libs[i].name != name
    ensures Own(libs, name).Some? ==> Own(libs, name).value.name == name
  {
    if libs != [] {
      OwnNone(libs[..|libs| - 1], name);
    }
  }

  lemma {:induction false} FindAbsorbAll(table: seq<Shared>, libs: seq<Lib>, name: string)
    requires DistinctNames(libs)
    ensures
      var before, own := Find(table, name), Own(libs, name);
      Find(AbsorbAll(table, libs), name)
      == if own.None? then before else if before.None? then Some(Shared(own.value, 1))
        else Some(Larger(before.value, own.value))
  {
    if libs != [] {
      var front, last := libs[..|libs| - 1], libs[|libs| - 1];
      FindAbsorbAll(table, front, name);
      FindAbsorb(AbsorbAll(table, front), last, name);
      OwnNone(front, name);
    }
  }

  /** The table holds for every name exactly what all unikernels need of it. */
  lemma {:induction false} TableIsNeeded(uks: seq<seq<Lib>>, name: string)
    requires forall u :: 0 <= u < |uks| ==> DistinctNames(uks[u])
    ensures Find(Gather(uks), name) == Needed(uks, name)
  {
    if uks != [] {
      TableIsNeeded(uks[..|uks| - 1], name);
      FindAbsorbAll(Gather(uks[..|uks| - 1]), uks[|uks| - 1], name);
    }
  }

  predicate Covers(s: Shared, l: Lib) {
    l.text <= s.lib.text && l.rodata <= s.lib.rodata && l.data <= s.lib.data && l.bss <= s.lib.bss
  }

  /** Needed sizes cover every user, and the occurrence is the number of users. */
  lemma {:induction false} NeededCovers(uks: seq<seq<Lib>>, name: string)
    ensures Needed(uks, name).None? <==> forall u :: 0 <= u < |uks| ==> Own(uks[u], name).None?
    ensures Needed(uks, name).Some? ==>
              && Needed(uks, name).value.lib.name == name && 1 <= Needed(uks, name).value.occurrence <= |uks|
              && (forall u :: 0 <= u < |uks| && Own(uks[u], name).Some? ==>
                    Covers(Needed(uks, name).value, Own(uks[u], name).value))
              && (Needed(uks, name).value.occurrence == |uks| <==> forall u :: 0 <= u < |uks| ==>
                    Own(uks[u], name).Some?)
  {
    if uks != [] {
      var front, last := uks[..|uks| - 1], uks[|uks| - 1];
      NeededCovers(front, name);
      OwnNone(last, name);
      assert forall u :: 0 <= u < |front| ==> front[u] == uks[u];
    }
  }
}
