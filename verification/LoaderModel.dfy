/** Guest memory during loading: pages of shared objects, mapped privately or shared, and pages of the guest's own. */
module LoaderModel {
  import opened Common

  /** Shared memory objects by name; every process that maps one sees its bytes. */
  type Pool = map<string, seq<byte>>

  /** How a mapping treats writes: to a copy of the page, or to the object itself. */
  datatype Flags = MapPrivate | MapShared

  datatype Page = Backed(name: string, index: nat, flags: Flags) | Private(content: seq<byte>)

  type Pages = map<nat, Page>

  datatype Memory = Memory(pool: Pool, pages: Pages)

  /** A page of the guest's own is a whole page, and no page writes through to the pool. */
  ghost predicate Isolated(pages: Pages) {
    forall p :: p in pages ==> if pages[p].Private? then |pages[p].content| == PAGE_SIZE
      else pages[p].flags == MapPrivate
  }

  /** A byte of a mapped object: zero after its end on its last page, a fault on the pages beyond. */
  function ObjectByte(obj: seq<byte>, off: nat): Option<byte> {
    if off < |obj| then Some(obj[off]) else if off / PAGE_SIZE * PAGE_SIZE < |obj| then Some(0) else None
  }

  function PageByte(pool: Pool, page: Page, off: nat): Option<byte> {
    match page
    case Backed(name, index, _) => if name in pool then ObjectByte(pool[name], index * PAGE_SIZE + off) else None
    case Private(content) => if off < |content| then Some(content[off]) else None
  }

  /** What the guest sees at an address; nothing where an access faults. */
  function Seen(m: Memory, a: nat): Option<byte> {
    if a / PAGE_SIZE in m.pages then PageByte(m.pool, m.pages[a / PAGE_SIZE], a % PAGE_SIZE) else None
  }

  // ---------- Mapping an object ----------

  function PageCount(size: nat): nat {
    (size + PAGE_SIZE - 1) / PAGE_SIZE
  }

  function PageOf(first: nat, name: string, flags: Flags, p: nat): Page {
    Backed(name, if p < first then 0 else p - first, flags)
  }

  function MapPages(m: Memory, first: nat, count: nat, name: string, flags: Flags): Memory {
    m.(pages := m.pages + map p: nat | first <= p < first + count :: PageOf(first, name, flags, p))
  }

  lemma SeenAfterMap(m: Memory, first: nat, count: nat, name: string, flags: Flags, a: nat)
    requires name in m.pool
    ensures
      Seen(MapPages(m, first, count, name, flags), a)
      == if first <= a / PAGE_SIZE < first + count then ObjectByte(m.pool[name], a - first * PAGE_SIZE) else Seen(m, a)
  {
    hide ObjectByte;
    var p := a / PAGE_SIZE;
    if first <= p < first + count {
      assert (p - first) * PAGE_SIZE + a % PAGE_SIZE == a - first * PAGE_SIZE;
    }
  }

  lemma MapIsolates(m: Memory, first: nat, count: nat, name: string)
    requires Isolated(m.pages)
    ensures Isolated(MapPages(m, first, count, name, MapPrivate).pages)
  {
  }

  // ---------- Writing a byte ----------

  function ByteOr(b: Option<byte>): byte {
    if b.Some? then b.value else 0
  }

  /** The page as the guest sees it, as memory of its own. */
  function PageCopy(pool: Pool, page: Page): (c: seq<byte>)
    ensures |c| == PAGE_SIZE && forall off :: 0 <= off < PAGE_SIZE ==> c[off] == ByteOr(PageByte(pool, page, off))
  {
    seq(PAGE_SIZE, off requires 0 <= off => ByteOr(PageByte(pool, page, off)))
  }

  /**
    Through a shared mapping a write goes to the object, unless it falls behind its end; otherwise to a copy of the
    page.
   */
  function Store(m: Memory, a: nat, v: byte): Memory
    requires a / PAGE_SIZE in m.pages
  {
    var page := m.pages[a / PAGE_SIZE];
    if page.Backed? && page.flags == MapShared then
      var off := page.index * PAGE_SIZE + a % PAGE_SIZE;
      if page.name in m.pool && off < |m.pool[page.name]|
      then m.(pool := m.pool[page.name := m.pool[page.name][off := v]]) else m
    else m.(pages := m.pages[a / PAGE_SIZE := Private(PageCopy(m.pool, page)[a % PAGE_SIZE := v])])
  }

  /** Had the object been mapped shared, writing would change it for every other guest. */
  lemma SharedWriteReachesPool(m: Memory, a: nat, v: byte)
    requires a / PAGE_SIZE in m.pages
    requires
      var page := m.pages[a / PAGE_SIZE];
      && page.Backed? && page.flags == MapShared && page.name in m.pool
      && page.index * PAGE_SIZE + a % PAGE_SIZE < |m.pool[page.name]| && Seen(m, a) != Some(v)
    ensures Store(m, a, v).pool != m.pool && Seen(Store(m, a, v), a) == Some(v)
  {
    var page, off := m.pages[a / PAGE_SIZE], m.pages[a / PAGE_SIZE].index * PAGE_SIZE + a % PAGE_SIZE;
    assert Store(m, a, v).pool[page.name][off] == v && m.pool[page.name][off] != v;
  }

  /** A page that can be read anywhere can be read everywhere. */
  lemma PageAllOrNothing(pool: Pool, page: Page, off: nat, other: nat)
    requires off < PAGE_SIZE && other < PAGE_SIZE && (page.Private? ==> |page.content| == PAGE_SIZE)
    ensures PageByte(pool, page, off).Some? <==> PageByte(pool, page, other).Some?
  {
    if page.Backed? {
      assert (page.index * PAGE_SIZE + off) / PAGE_SIZE == page.index == (page.index * PAGE_SIZE + other) / PAGE_SIZE;
    }
  }

  /** Without shared mappings a write changes one byte of the guest and nothing of the pool. */
  lemma SeenAfterStore(m: Memory, a: nat, v: byte, x: nat)
    requires Isolated(m.pages) && Seen(m, a).Some?
    ensures Isolated(Store(m, a, v).pages) && Store(m, a, v).pool == m.pool
    ensures Seen(Store(m, a, v), x) == if x == a then Some(v) else Seen(m, x)
  {
    hide ObjectByte;
    if x / PAGE_SIZE == a / PAGE_SIZE {
      PageAllOrNothing(m.pool, m.pages[a / PAGE_SIZE], a % PAGE_SIZE, x % PAGE_SIZE);
    }
  }

  // ---------- Copying ----------

  /** Bytes written one after the other from an address on. */
  function Copy(m: Memory, addr: nat, bytes: seq<byte>): Memory {
    if bytes == [] then m
    else
      var n := |bytes| - 1;
      var before := Copy(m, addr, bytes[..n]);
      if (addr + n) / PAGE_SIZE in before.pages then Store(before, addr + n, bytes[n]) else before
  }

  predicate Writable(m: Memory, addr: nat, len: nat) {
    forall a: nat {:trigger Seen(m, a)} :: addr <= a < addr + len ==> Seen(m, a).Some?
  }

  lemma {:induction false} SeenAfterCopy(m: Memory, addr: nat, bytes: seq<byte>, x: nat)
    requires Isolated(m.pages) && Writable(m, addr, |bytes|)
    ensures Isolated(Copy(m, addr, bytes).pages) && Copy(m, addr, bytes).pool == m.pool
    ensures Seen(Copy(m, addr, bytes), x) == if addr <= x < addr + |bytes| then Some(bytes[x - addr]) else Seen(m, x)
    decreases |bytes|
  {
    hide PageByte, Store, Isolated;
    if bytes != [] {
      var n := |bytes| - 1;
      SeenAfterCopy(m, addr, bytes[..n], x);
      SeenAfterCopy(m, addr, bytes[..n], addr + n);
      assert Seen(m, addr + n).Some?;
      SeenAfterStore(Copy(m, addr, bytes[..n]), addr + n, bytes[n], x);
    }
  }
}
