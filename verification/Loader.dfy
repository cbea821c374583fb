/** Building the guest image: shared sections are mapped from the pool, private ones copied in. */
module Loader {
  import opened Common
  import opened LoaderModel
  import Format

  /** A section of the shared list. */
  datatype Listed = Listed(name: string, vma: nat, size: nat)

  /** Sections off a page boundary are skipped, and `.data` only gives its address. */
  predicate IsMapped(s: Listed) {
    s.vma % PAGE_SIZE == 0 && s.name != ".data"
  }

  function ObjectName(aslr: bool, name: string): string {
    (if aslr then "aslr_" else "") + "lib" + name
  }

  /** Where the guest's memory begins and which kind of objects are used. */
  datatype Setup = Setup(region: nat, aslr: bool)

  function FirstPage(c: Setup, s: Listed): nat {
    (c.region + s.vma) / PAGE_SIZE
  }

  /** The object exists and the kernel accepts the length. */
  predicate Mappable(c: Setup, pool: Pool, s: Listed) {
    ObjectName(c.aslr, s.name) in pool && s.size > 0
  }

  predicate AllMappable(c: Setup, pool: Pool, list: seq<Listed>) {
    forall i :: 0 <= i < |list| && IsMapped(list[i]) ==> Mappable(c, pool, list[i])
  }

  function MapOne(c: Setup, m: Memory, s: Listed): Memory {
    MapPages(m, FirstPage(c, s), PageCount(s.size), ObjectName(c.aslr, s.name), MapPrivate)
  }

  function MapAll(c: Setup, m: Memory, list: seq<Listed>): (r: Memory)
    ensures r.pool == m.pool
  {
    if list == [] then m
    else
      var before, last := MapAll(c, m, list[..|list| - 1]), list[|list| - 1];
      if IsMapped(last) then MapOne(c, before, last) else before
  }

  function DataStart(list: seq<Listed>): nat {
    if list == [] then 0
    else
      var last := list[|list| - 1];
      if last.vma % PAGE_SIZE == 0 && last.name == ".data" then last.vma else DataStart(list[..|list| - 1])
  }

  /** The data section counted is the last one on a page boundary. */
  lemma {:induction false} DataStartExactly(list: seq<Listed>)
    ensures
      || (DataStart(list) == 0 && forall i :: 0 <= i < |list| ==> list[i].name != ".data" || list[i].vma % 0x1000 != 0)
      || (exists k :: 0 <= k < |list| && list[k].name == ".data" && list[k].vma % 0x1000 == 0
                      && list[k].vma == DataStart(list)
                      && forall i :: k < i < |list| ==> list[i].name != ".data" || list[i].vma % 0x1000 != 0)
  {
    if list != [] {
      var n := |list| - 1;
      DataStartExactly(list[..n]);
      if list[n].name == ".data" && list[n].vma % 0x1000 == 0 {
        assert list[n].vma == DataStart(list);
      } else if k :| 0 <= k < n && list[..n][k].name == ".data" && list[..n][k].vma % 0x1000 == 0
                     && list[..n][k].vma == DataStart(list)
                     && forall i :: k < i < n ==> list[..n][i].name != ".data" || list[..n][i].vma % 0x1000 != 0 {
        assert list[k].vma == DataStart(list);
        assert forall i :: k < i < n ==> list[..n][i] == list[i];
      } else {
        assert forall i :: 0 <= i < n ==> list[..n][i] == list[i];
      }
    }
  }

  function CopyAll(c: Setup, m: Memory, secs: seq<Format.Section>): Memory {
    if secs == [] then m
    else
      var last := secs[|secs| - 1];
      Copy(CopyAll(c, m, secs[..|secs| - 1]), c.region + last.vma, last.bytes)
  }

  // ---------- What the image shows ----------

  predicate CoversAddress(c: Setup, s: Listed, a: nat) {
    FirstPage(c, s) <= a / PAGE_SIZE < FirstPage(c, s) + PageCount(s.size)
  }

  predicate PageDisjoint(c: Setup, s: Listed, t: Listed) {
    || FirstPage(c, s) + PageCount(s.size) <= FirstPage(c, t)
    || FirstPage(c, t) + PageCount(t.size) <= FirstPage(c, s)
  }

  lemma DisjointExactly(c: Setup, s: Listed, t: Listed)
    requires s.size > 0 && t.size > 0
    ensures PageDisjoint(c, s, t) <==> forall a: nat :: !(CoversAddress(c, s, a) && CoversAddress(c, t, a))
  {
    hide FirstPage;
    var p := if FirstPage(c, s) < FirstPage(c, t) then FirstPage(c, t) else FirstPage(c, s);
    assert p * PAGE_SIZE / PAGE_SIZE == p;
    if !PageDisjoint(c, s, t) {
      assert CoversAddress(c, s, p * PAGE_SIZE) && CoversAddress(c, t, p * PAGE_SIZE);
    }
  }

  /** No two mapped sections share a page. */
  ghost predicate Separate(c: Setup, list: seq<Listed>) {
    forall i, j :: 0 <= i < j < |list| && IsMapped(list[i]) && IsMapped(list[j]) ==> PageDisjoint(c, list[i], list[j])
  }

  lemma {:induction false} MapAllOutside(c: Setup, m: Memory, list: seq<Listed>, a: nat)
    requires AllMappable(c, m.pool, list)
    requires forall i :: 0 <= i < |list| && IsMapped(list[i]) ==> !CoversAddress(c, list[i], a)
    ensures Seen(MapAll(c, m, list), a) == Seen(m, a)
  {
    hide Seen, MapPages, FirstPage, PageCount;
    if list != [] {
      var front, last := list[..|list| - 1], list[|list| - 1];
      assert forall i :: 0 <= i < |front| ==> front[i] == list[i];
      MapAllOutside(c, m, front, a);
      if IsMapped(last) {
        SeenAfterMap(MapAll(c, m, front), FirstPage(c, last), PageCount(last.size), ObjectName(c.aslr, last.name),
          MapPrivate, a);
      }
    }
  }

  lemma {:induction false} MapAllInside(c: Setup, m: Memory, list: seq<Listed>, i: nat, a: nat)
    requires AllMappable(c, m.pool, list) && Separate(c, list) && i < |list| && IsMapped(list[i])
    requires CoversAddress(c, list[i], a)
    ensures Seen(MapAll(c, m, list), a)
            == ObjectByte(m.pool[ObjectName(c.aslr, list[i].name)], a - FirstPage(c, list[i]) * PAGE_SIZE)
  {
    hide Seen, MapPages, FirstPage, PageCount, ObjectByte;
    var front, last := list[..|list| - 1], list[|list| - 1];
    assert forall k :: 0 <= k < |front| ==> front[k] == list[k];
    if i < |front| {
      MapAllInside(c, m, front, i, a);
      if IsMapped(last) {
        assert PageDisjoint(c, list[i], last);
      }
    }
    if IsMapped(last) {
      SeenAfterMap(MapAll(c, m, front), FirstPage(c, last), PageCount(last.size), ObjectName(c.aslr, last.name),
        MapPrivate, a);
    }
  }

  /** Every mapping made is private. */
  lemma {:induction false} MapAllIsolated(c: Setup, m: Memory, list: seq<Listed>)
    requires Isolated(m.pages)
    ensures Isolated(MapAll(c, m, list).pages)
  {
    hide Isolated, MapPages;
    if list != [] {
      var front, last := list[..|list| - 1], list[|list| - 1];
      MapAllIsolated(c, m, front);
      MapIsolates(MapAll(c, m, front), FirstPage(c, last), PageCount(last.size), ObjectName(c.aslr, last.name));
    }
  }

  predicate Holds(c: Setup, s: Format.Section, a: nat) {
    c.region + s.vma <= a < c.region + s.vma + |s.bytes|
  }

  ghost predicate AllWritable(c: Setup, m: Memory, secs: seq<Format.Section>) {
    forall i :: 0 <= i < |secs| ==> Writable(m, c.region + secs[i].vma, |secs[i].bytes|)
  }

  /** Copying changes only the addresses of the sections, makes none unreadable and leaves the pool alone. */
  lemma {:induction false} CopyAllOutside(c: Setup, m: Memory, secs: seq<Format.Section>, a: nat)
    requires Isolated(m.pages) && AllWritable(c, m, secs)
    ensures Isolated(CopyAll(c, m, secs).pages) && CopyAll(c, m, secs).pool == m.pool
    ensures Seen(CopyAll(c, m, secs), a).Some? <==> Seen(m, a).Some?
    ensures (forall i :: 0 <= i < |secs| ==> !Holds(c, secs[i], a)) ==> Seen(CopyAll(c, m, secs), a) == Seen(m, a)
    decreases |secs|, 0
  {
    hide Seen, Copy, Isolated;
    if secs != [] {
      var front, last := secs[..|secs| - 1], secs[|secs| - 1];
      assert forall i :: 0 <= i < |front| ==> front[i] == secs[i];
      CopyAllOutside(c, m, front, a);
      StillWritable(c, m, front, last);
      SeenAfterCopy(CopyAll(c, m, front), c.region + last.vma, last.bytes, a);
    }
  }

  lemma StillWritable(c: Setup, m: Memory, secs: seq<Format.Section>, s: Format.Section)
    requires Isolated(m.pages) && AllWritable(c, m, secs)
    ensures Writable(CopyAll(c, m, secs), c.region + s.vma, |s.bytes|) <==> Writable(m, c.region + s.vma, |s.bytes|)
    decreases |secs|, 1
  {
    hide Seen, CopyAll, Isolated;
    forall a: nat
      ensures Seen(CopyAll(c, m, secs), a).Some? <==> Seen(m, a).Some?
    {
      CopyAllOutside(c, m, secs, a);
    }
  }

  ghost predicate ByteDisjoint(c: Setup, secs: seq<Format.Section>) {
    forall i, j, a: nat :: 0 <= i < j < |secs| ==> !(Holds(c, secs[i], a) && Holds(c, secs[j], a))
  }

  lemma {:induction false} CopyAllInside(c: Setup, m: Memory, secs: seq<Format.Section>, i: nat, a: nat)
    requires Isolated(m.pages) && AllWritable(c, m, secs) && ByteDisjoint(c, secs) && i < |secs| && Holds(c, secs[i], a)
    ensures Seen(CopyAll(c, m, secs), a) == Some(secs[i].bytes[a - c.region - secs[i].vma])
  {
    hide Seen, Copy, Isolated;
    var front, last := secs[..|secs| - 1], secs[|secs| - 1];
    assert forall k :: 0 <= k < |front| ==> front[k] == secs[k];
    CopyAllOutside(c, m, front, a);
    StillWritable(c, m, front, last);
    SeenAfterCopy(CopyAll(c, m, front), c.region + last.vma, last.bytes, a);
    if i < |front| {
      CopyAllInside(c, m, front, i, a);
      assert !Holds(c, last, a);
    }
  }

  // ---------- The whole image ----------

  /** Bytes of no private section are bytes of a mapped one. */
  ghost predicate Apart(c: Setup, list: seq<Listed>, secs: seq<Format.Section>) {
    forall i, j, a: nat :: 0 <= i < |list| && IsMapped(list[i]) && 0 <= j < |secs| && Holds(c, secs[j], a) ==>
      !(c.region + list[i].vma <= a < c.region + list[i].vma + list[i].size)
  }

  ghost function Image(c: Setup, m: Memory, list: seq<Listed>, secs: seq<Format.Section>): Memory {
    CopyAll(c, MapAll(c, m, list), secs)
  }

  lemma ImageIs(c: Setup, m: Memory, list: seq<Listed>, secs: seq<Format.Section>)
    ensures Image(c, m, list, secs) == CopyAll(c, MapAll(c, m, list), secs)
  {
  }

  /** What the two passes ask of their input. */
  ghost predicate Loadable(c: Setup, m: Memory, list: seq<Listed>, secs: seq<Format.Section>) {
    && c.region % PAGE_SIZE == 0 && Isolated(m.pages) && AllMappable(c, m.pool, list)
    && AllWritable(c, MapAll(c, m, list), secs)
  }

  /** No byte is claimed twice. */
  ghost predicate Compatible(c: Setup, list: seq<Listed>, secs: seq<Format.Section>) {
    Separate(c, list) && ByteDisjoint(c, secs) && Apart(c, list, secs)
  }

  lemma SharedByte(c: Setup, m: Memory, list: seq<Listed>, secs: seq<Format.Section>, i: nat, off: nat)
    requires Loadable(c, m, list, secs) && Compatible(c, list, secs)
    requires i < |list| && IsMapped(list[i]) && off < list[i].size
    ensures Seen(Image(c, m, list, secs), c.region + list[i].vma + off)
            == ObjectByte(m.pool[ObjectName(c.aslr, list[i].name)], off)
  {
    hide Seen, ObjectByte, MapAll, CopyAll, FirstPage, CoversAddress, PageDisjoint, AllWritable, Isolated, Image,
      Holds, Apart;
    var a := c.region + list[i].vma + off;
    CoversOwn(c, list[i], off);
    MapAllInside(c, m, list, i, a);
    MapAllIsolated(c, m, list);
    NotPrivate(c, list, secs, i, a);
    CopyAllOutside(c, MapAll(c, m, list), secs, a);
    ImageIs(c, m, list, secs);
  }

  lemma NotPrivate(c: Setup, list: seq<Listed>, secs: seq<Format.Section>, i: nat, a: nat)
    requires Apart(c, list, secs) && i < |list| && IsMapped(list[i])
    requires c.region + list[i].vma <= a < c.region + list[i].vma + list[i].size
    ensures forall j :: 0 <= j < |secs| ==> !Holds(c, secs[j], a)
  {
  }

  lemma CoversOwn(c: Setup, s: Listed, off: nat)
    requires c.region % PAGE_SIZE == 0 && s.vma % PAGE_SIZE == 0 && off < s.size
    ensures CoversAddress(c, s, c.region + s.vma + off) && FirstPage(c, s) * PAGE_SIZE == c.region + s.vma
  {
    hide PageCount;
    assert (c.region + s.vma) % PAGE_SIZE == 0;
    AtPage(c.region + s.vma, off, s.size);
  }

  lemma AtPage(start: nat, off: nat, size: nat)
    requires start % PAGE_SIZE == 0 && off < size
    ensures start / PAGE_SIZE <= (start + off) / PAGE_SIZE < start / PAGE_SIZE + PageCount(size)
    ensures start / PAGE_SIZE * PAGE_SIZE == start
  {
  }

  lemma PrivateByte(c: Setup, m: Memory, list: seq<Listed>, secs: seq<Format.Section>, j: nat, a: nat)
    requires Loadable(c, m, list, secs) && ByteDisjoint(c, secs) && j < |secs| && Holds(c, secs[j], a)
    ensures Seen(Image(c, m, list, secs), a) == Some(secs[j].bytes[a - c.region - secs[j].vma])
  {
    hide Seen, MapAll, CopyAll, Image, AllWritable, Isolated;
    MapAllIsolated(c, m, list);
    CopyAllInside(c, MapAll(c, m, list), secs, j, a);
    ImageIs(c, m, list, secs);
  }

  lemma OtherByte(c: Setup, m: Memory, list: seq<Listed>, secs: seq<Format.Section>, a: nat)
    requires Loadable(c, m, list, secs)
    requires forall i :: 0 <= i < |list| && IsMapped(list[i]) ==> !CoversAddress(c, list[i], a)
    requires forall j :: 0 <= j < |secs| ==> !Holds(c, secs[j], a)
    ensures Seen(Image(c, m, list, secs), a) == Seen(m, a)
  {
    hide Seen, MapAll, CopyAll, Image, AllWritable, Isolated;
    MapAllIsolated(c, m, list);
    MapAllOutside(c, m, list, a);
    CopyAllOutside(c, MapAll(c, m, list), secs, a);
    ImageIs(c, m, list, secs);
  }

  /**
    Whatever the order of the two lists, every shared section shows its object's bytes at its address and every
    private section its own, an address in neither shows what it showed before, and the pool is as it was.
   */
  lemma ImageComplete(c: Setup, m: Memory, list: seq<Listed>, secs: seq<Format.Section>)
    requires Loadable(c, m, list, secs) && Compatible(c, list, secs)
    ensures Image(c, m, list, secs).pool == m.pool
    ensures forall i, off: nat :: 0 <= i < |list| && IsMapped(list[i]) && off < list[i].size ==>
              Seen(Image(c, m, list, secs), c.region + list[i].vma + off)
              == ObjectByte(m.pool[ObjectName(c.aslr, list[i].name)], off)
    ensures forall j, a: nat :: 0 <= j < |secs| && Holds(c, secs[j], a) ==>
              Seen(Image(c, m, list, secs), a) == Some(secs[j].bytes[a - c.region - secs[j].vma])
    ensures forall a: nat ::
              (forall i :: 0 <= i < |list| && IsMapped(list[i]) ==> !CoversAddress(c, list[i], a))
              && (forall j :: 0 <= j < |secs| ==> !Holds(c, secs[j], a)) ==>
                Seen(Image(c, m, list, secs), a) == Seen(m, a)
  {
    hide Seen, ObjectByte, MapAll, CopyAll, Apart, Image, CoversAddress, Separate, AllWritable, Isolated;
    PoolUntouched(c, m, list, secs);
    forall i, off: nat | 0 <= i < |list| && IsMapped(list[i]) && off < list[i].size
      ensures Seen(Image(c, m, list, secs), c.region + list[i].vma + off)
              == ObjectByte(m.pool[ObjectName(c.aslr, list[i].name)], off)
    {
      SharedByte(c, m, list, secs, i, off);
    }
    forall j, a: nat | 0 <= j < |secs| && Holds(c, secs[j], a)
      ensures Seen(Image(c, m, list, secs), a) == Some(secs[j].bytes[a - c.region - secs[j].vma])
    {
      PrivateByte(c, m, list, secs, j, a);
    }
    forall a: nat | (forall i :: 0 <= i < |list| && IsMapped(list[i]) ==> !CoversAddress(c, list[i], a))
                    && (forall j :: 0 <= j < |secs| ==> !Holds(c, secs[j], a))
      ensures Seen(Image(c, m, list, secs), a) == Seen(m, a)
    {
      OtherByte(c, m, list, secs, a);
    }
  }

  /** Because every mapping is private, no section copied in reaches the pool, wherever it lies. */
  lemma PoolUntouched(c: Setup, m: Memory, list: seq<Listed>, secs: seq<Format.Section>)
    requires Loadable(c, m, list, secs)
    ensures Image(c, m, list, secs).pool == m.pool
  {
    hide MapAll, CopyAll, AllWritable, Isolated;
    MapAllIsolated(c, m, list);
    CopyAllOutside(c, MapAll(c, m, list), secs, 0);
  }

  /** On a page boundary and not the data section. */
  predicate Shareable(s: Listed) {
    s.vma % 0x1000 == 0 && s.name != ".data"
  }

  /** The object of a section: of the kind without fixed addresses if asked for. */
  function SharedName(aslr: bool, name: string): string {
    if aslr then "aslr_lib" + name else "lib" + name
  }

  lemma NamesAgree(aslr: bool, s: Listed)
    ensures IsMapped(s) <==> Shareable(s)
    ensures ObjectName(aslr, s.name) == SharedName(aslr, s.name)
  {
    assert "aslr_" + "lib" + s.name == "aslr_lib" + s.name && "" + "lib" + s.name == "lib" + s.name;
  }

  lemma CoversExactly(c: Setup, s: Listed, a: nat)
    requires c.region % PAGE_SIZE == 0 && Shareable(s)
    ensures CoversAddress(c, s, a) <==>
            c.region + s.vma <= a < c.region + s.vma + (s.size + 0xfff) / 0x1000 * 0x1000
  {
  }

  /**
    The same without the loader's own notions: a section on a page boundary shows its object, zero to the end of the
    last page, and an address on no page of such a section and in no private section shows what it showed before.
   */
  lemma ImageExactly(c: Setup, m: Memory, list: seq<Listed>, secs: seq<Format.Section>)
    requires Loadable(c, m, list, secs) && Compatible(c, list, secs)
    ensures forall i :: 0 <= i < |list| && Shareable(list[i]) ==>
              SharedName(c.aslr, list[i].name) in m.pool && list[i].size > 0
    ensures forall i, off: nat :: 0 <= i < |list| && Shareable(list[i]) && off < list[i].size ==>
              var obj := m.pool[SharedName(c.aslr, list[i].name)];
              var seen := Seen(Image(c, m, list, secs), c.region + list[i].vma + off);
              if off < |obj| then seen == Some(obj[off])
              else seen == if off < (|obj| + 0xfff) / 0x1000 * 0x1000 then Some(0) else None
    ensures forall a: nat ::
              (forall i :: 0 <= i < |list| && Shareable(list[i]) ==>
                 !(c.region + list[i].vma <= a < c.region + list[i].vma + (list[i].size + 0xfff) / 0x1000 * 0x1000))
              && (forall j :: 0 <= j < |secs| ==>
                    !(c.region + secs[j].vma <= a < c.region + secs[j].vma + |secs[j].bytes|))
              ==> Seen(Image(c, m, list, secs), a) == Seen(m, a)
  {
    hide Seen, MapAll, CopyAll, Image, Compatible, AllWritable, Isolated, CoversAddress, ObjectByte, ObjectName,
      IsMapped, Shareable, SharedName;
    ImageComplete(c, m, list, secs);
    forall i | 0 <= i < |list|
      ensures IsMapped(list[i]) <==> Shareable(list[i])
      ensures ObjectName(c.aslr, list[i].name) == SharedName(c.aslr, list[i].name)
    {
      NamesAgree(c.aslr, list[i]);
    }
    forall i, off: nat | 0 <= i < |list| && Shareable(list[i]) && off < list[i].size
      ensures
        var obj := m.pool[SharedName(c.aslr, list[i].name)];
        var seen := Seen(Image(c, m, list, secs), c.region + list[i].vma + off);
        if off < |obj| then seen == Some(obj[off])
        else seen == if off < (|obj| + 0xfff) / 0x1000 * 0x1000 then Some(0) else None
    {
      ObjectByteExactly(m.pool[SharedName(c.aslr, list[i].name)], off);
    }
    forall i, a: nat | 0 <= i < |list| && Shareable(list[i])
      ensures CoversAddress(c, list[i], a) <==>
              c.region + list[i].vma <= a < c.region + list[i].vma + (list[i].size + 0xfff) / 0x1000 * 0x1000
    {
      CoversExactly(c, list[i], a);
    }
  }

  lemma ObjectByteExactly(obj: seq<byte>, off: nat)
    ensures ObjectByte(obj, off)
            == if off < |obj| then Some(obj[off])
               else if off < (|obj| + 0xfff) / 0x1000 * 0x1000 then Some(0) else None
  {
  }

  // ---------- The loader ----------

  class LoaderInfo {
    const setup: Setup
    var pool: Pool
    var pages: Pages

    ghost function View(): Memory
      reads this
    {
      Memory(pool, pages)
    }

    constructor (setup: Setup, pool: Pool, pages: Pages)
      ensures this.setup == setup && this.pool == pool && this.pages == pages
    {
      this.setup, this.pool, this.pages := setup, pool, pages;
    }

    /** The kernel's mapping call, for either kind of mapping; it replaces whole pages. */
    method Mmap(addr: nat, size: nat, flags: Flags, name: string) returns (ok: bool)
      modifies this`pages
      ensures ok <==> size > 0
      ensures View() == if ok then MapPages(old(View()), addr / PAGE_SIZE, PageCount(size), name, flags)
        else old(View())
    {
      if size == 0 {
        return false;
      }
      var mapped := MapPages(Memory(pool, pages), addr / PAGE_SIZE, PageCount(size), name, flags);
      pages := mapped.pages;
      ok := true;
    }

    /** A missing object or an empty length stops the monitor. */
    method ShmMmap(addr: nat, name: string, size: nat) returns (ok: bool)
      modifies this`pages
      ensures ok <==> name in pool && size > 0
      ensures View() == if ok then MapPages(old(View()), addr / PAGE_SIZE, PageCount(size), name, MapPrivate)
        else old(View())
    {
      if name !in pool {
        return false;
      }
      ok := Mmap(addr, size, MapPrivate, name);
    }

    method MoveSecAslr(list: seq<Listed>) returns (ok: bool, dataStart: nat)
      requires Isolated(pages)
      modifies this`pages
      ensures ok <==> AllMappable(setup, pool, list)
      ensures ok <==> forall i :: 0 <= i < |list| && Shareable(list[i]) ==>
        SharedName(setup.aslr, list[i].name) in pool && list[i].size > 0
      ensures ok ==> View() == MapAll(setup, old(View()), list) && dataStart == DataStart(list) && Isolated(pages)
    {
      hide MapPages, Isolated, SharedName, Shareable;
      MapAllIsolated(setup, View(), list);
      forall i | 0 <= i < |list|
        ensures IsMapped(list[i]) <==> Shareable(list[i])
        ensures ObjectName(setup.aslr, list[i].name) == SharedName(setup.aslr, list[i].name)
      {
        NamesAgree(setup.aslr, list[i]);
      }
      dataStart := 0;
      for i := 0 to |list|
        invariant View() == MapAll(setup, old(View()), list[..i]) && dataStart == DataStart(list[..i])
        invariant forall k :: 0 <= k < i && IsMapped(list[k]) ==> Mappable(setup, pool, list[k])
      {
        assert list[..i + 1][..i] == list[..i];
        var s := list[i];
        if s.vma % PAGE_SIZE != 0 {
          continue;
        }
        if s.name == ".data" {
          dataStart := s.vma;
          continue;
        }
        var name := if setup.aslr then "aslr_" else "";
        name := name + "lib";
        name := name + s.name;
        var mapped := ShmMmap(setup.region + s.vma, name, s.size);
        if !mapped {
          return false, dataStart;
        }
      }
      assert list[..|list|] == list;
      ok := true;
    }

    /** One byte through the page tables: a shared page writes to its object. */
    method WriteByte(addr: nat, v: byte)
      requires addr / PAGE_SIZE in pages
      modifies this`pool, this`pages
      ensures View() == Store(old(View()), addr, v)
    {
      var stored := Store(Memory(pool, pages), addr, v);
      pool, pages := stored.pool, stored.pages;
    }

    /** Byte by byte; a byte that cannot be written stops the monitor. */
    method Memcpy(addr: nat, bytes: seq<byte>) returns (ok: bool)
      requires Isolated(pages)
      modifies this`pool, this`pages
      ensures ok <==> Writable(old(View()), addr, |bytes|)
      ensures ok ==> View() == Copy(old(View()), addr, bytes)
      ensures Isolated(pages) && pool == old(pool)
    {
      hide Seen, Store, Isolated;
      for i := 0 to |bytes|
        invariant Writable(old(View()), addr, i)
        invariant View() == Copy(old(View()), addr, bytes[..i]) && Isolated(pages) && pool == old(pool)
      {
        assert bytes[..i + 1][..i] == bytes[..i];
        SeenAfterCopy(old(View()), addr, bytes[..i], addr + i);
        if Seen(Memory(pool, pages), addr + i).None? {
          return false;
        }
        InPages(View(), addr + i);
        SeenAfterStore(View(), addr + i, bytes[i], addr + i);
        WriteByte(addr + i, bytes[i]);
      }
      assert bytes[..|bytes|] == bytes;
      ok := true;
    }

    /** The pool may change, by its frame; it does not, because no page is mapped shared. */
    method MoveAll(secs: seq<Format.Section>) returns (ok: bool)
      requires Isolated(pages)
      modifies this`pool, this`pages
      ensures ok <==> AllWritable(setup, old(View()), secs)
      ensures ok ==> View() == CopyAll(setup, old(View()), secs)
      ensures Isolated(pages) && pool == old(pool)
    {
      hide Seen, Copy, Writable, Isolated;
      for i := 0 to |secs|
        invariant AllWritable(setup, old(View()), secs[..i])
        invariant View() == CopyAll(setup, old(View()), secs[..i]) && Isolated(pages) && pool == old(pool)
      {
        assert secs[..i + 1][..i] == secs[..i];
        StillWritable(setup, old(View()), secs[..i], secs[i]);
        var copied := Memcpy(setup.region + secs[i].vma, secs[i].bytes);
        if !copied {
          return false;
        }
      }
      assert secs[..|secs|] == secs;
      ok := true;
    }

    /** Both passes, as the memory region is set up. */
    method Load(list: seq<Listed>, secs: seq<Format.Section>) returns (ok: bool)
      requires setup.region % PAGE_SIZE == 0 && Isolated(pages)
      modifies this`pool, this`pages
      ensures ok <==> Loadable(setup, old(View()), list, secs)
      ensures ok ==> View() == Image(setup, old(View()), list, secs)
      ensures pool == old(pool)
    {
      hide MapAll, CopyAll, Isolated, AllWritable, AllMappable;
      var dataStart;
      ok, dataStart := MoveSecAslr(list);
      if ok {
        ok := MoveAll(secs);
      }
    }
  }

  lemma InPages(m: Memory, a: nat)
    requires Seen(m, a).Some?
    ensures a / PAGE_SIZE in m.pages
  {
  }
}
