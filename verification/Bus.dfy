/** The device bus: disjoint address ranges found through the greatest base not above an address. */
module Bus {
  import opened Common

  type Device = nat
  /** A device at `base .. base + len`; the map orders and identifies ranges by base alone. */
  datatype Entry = Entry(base: nat, len: nat, device: Device)

  predicate FitsU64(e: Entry) {
    e.base < TWO_64 && e.len < TWO_64
  }

  /** Non-empty ranges by ascending base, which every insertion keeps. */
  ghost predicate Ordered(es: seq<Entry>) {
    && (forall i :: 0 <= i < |es| ==> FitsU64(es[i]) && es[i].len > 0)
    && (forall i, j :: 0 <= i < j < |es| ==> es[i].base < es[j].base)
  }

  /** Moreover none reaches into the next. */
  ghost predicate Valid(es: seq<Entry>) {
    Ordered(es) && forall i, j :: 0 <= i < j < |es| ==> es[i].base + es[i].len <= es[j].base
  }

  predicate Owns(e: Entry, a: nat) {
    e.base <= a < e.base + e.len
  }

  ghost predicate Disjoint(d: Entry, e: Entry) {
    forall a: nat :: !(Owns(d, a) && Owns(e, a))
  }

  // ---------- Lookup ----------

  /** The last entry whose base is not above the address. */
  function FirstBefore(es: seq<Entry>, a: nat): (r: Option<Entry>)
    ensures r.Some? ==> r.value.base <= a
  {
    if es == [] then None
    else if es[|es| - 1].base <= a then Some(es[|es| - 1]) else FirstBefore(es[..|es| - 1], a)
  }

  function GetDevice(es: seq<Entry>, a: nat): Option<(nat, Device)> {
    var e := FirstBefore(es, a);
    if e.Some? && a - e.value.base < e.value.len then Some((a - e.value.base, e.value.device)) else None
  }

  lemma {:induction false} FirstBeforeIs(es: seq<Entry>, a: nat)
    requires Ordered(es)
    ensures FirstBefore(es, a).None? ==> forall i :: 0 <= i < |es| ==> a < es[i].base
    ensures FirstBefore(es, a).Some? ==>
              exists k :: 0 <= k < |es| && es[k] == FirstBefore(es, a).value && es[k].base <= a
                          && forall i :: k < i < |es| ==> a < es[i].base
  {
    if es != [] && es[|es| - 1].base > a {
      var front := es[..|es| - 1];
      FirstBeforeIs(front, a);
      assert forall i :: 0 <= i < |front| ==> front[i] == es[i];
    }
  }

  /** The lookup through one neighbour agrees with a search of every range. */
  lemma LookupIsSearch(es: seq<Entry>, a: nat)
    requires Valid(es)
    ensures GetDevice(es, a).None? <==> forall i :: 0 <= i < |es| ==> !Owns(es[i], a)
    ensures GetDevice(es, a).Some? ==>
              exists k :: 0 <= k < |es| && Owns(es[k], a) && GetDevice(es, a).value == (a - es[k].base, es[k].device)
  {
    FirstBeforeIs(es, a);
    if FirstBefore(es, a).Some? {
      var k :| 0 <= k < |es| && es[k] == FirstBefore(es, a).value && es[k].base <= a && forall i :: k < i < |es| ==>
        a < es[i].base;
      assert forall i :: 0 <= i < k ==> es[i].base + es[i].len <= es[k].base;
      if GetDevice(es, a).Some? {
        assert Owns(es[k], a);
      }
    }
  }

  // ---------- Insertion ----------

  /** The ordered map's insertion: an equal base keeps its key and gets the new device. */
  function Put(es: seq<Entry>, e: Entry): (seq<Entry>, bool) {
    if es == [] then ([e], false)
    else if es[0].base == e.base then ([es[0].(device := e.device)] + es[1..], true)
    else if e.base < es[0].base then ([e] + es, false)
    else ([es[0]] + Put(es[1..], e).0, Put(es[1..], e).1)
  }

  /** The last address of a range in 64-bit arithmetic. */
  function LastAddress(e: Entry): nat
    requires e.len > 0
  {
    (e.base + e.len - 1) % TWO_64
  }

  predicate Refused(es: seq<Entry>, e: Entry) {
    e.len == 0 || GetDevice(es, e.base).Some?
    || (FirstBefore(es, LastAddress(e)).Some? && FirstBefore(es, LastAddress(e)).value.base >= e.base)
  }

  /** The computed last address is not below the first, or there is nothing above the first. */
  predicate Representable(e: Entry) {
    e.base + e.len <= TWO_64 || e.base == TWO_64 - 1
  }

  /** Where a range that is refused by nobody goes: between its neighbours, and nothing is replaced. */
  lemma {:induction false} PutBetween(es: seq<Entry>, e: Entry, k: nat)
    requires k <= |es|
    requires forall i :: 0 <= i < k ==> es[i].base < e.base
    requires forall i :: k <= i < |es| ==> e.base < es[i].base
    ensures Put(es, e) == (es[..k] + [e] + es[k..], false)
  {
    if k == 0 {
      assert es[..0] + [e] + es[0..] == [e] + es;
      assert es == [] ==> [e] + es == [e];
    } else {
      PutBetween(es[1..], e, k - 1);
      assert es[..k] == [es[0]] + es[1..][..k - 1] && es[k..] == es[1..][k - 1..];
      assert [es[0]] + (es[1..][..k - 1] + [e] + es[1..][k - 1..]) == es[..k] + [e] + es[k..];
    }
  }

  lemma {:induction false} Position(es: seq<Entry>, a: nat) returns (k: nat)
    requires Ordered(es) && forall i :: 0 <= i < |es| ==> es[i].base != a
    ensures k <= |es| && (forall i :: 0 <= i < k ==> es[i].base < a) && forall i :: k <= i < |es| ==> a < es[i].base
  {
    k := 0;
    while k < |es| && es[k].base < a
      invariant k <= |es| && forall i :: 0 <= i < k ==> es[i].base < a
    {
      k := k + 1;
    }
    assert k < |es| ==> forall i :: k < i < |es| ==> es[k].base < es[i].base;
  }

  /** A range that passes the checks is new to the map: the branch that reports a replaced device is never taken. */
  lemma NothingReplaced(es: seq<Entry>, e: Entry) returns (k: nat)
    requires Ordered(es) && FitsU64(e) && !Refused(es, e)
    ensures k <= |es| && Put(es, e) == (es[..k] + [e] + es[k..], false)
    ensures (forall i :: 0 <= i < k ==> es[i].base < e.base) && forall i :: k <= i < |es| ==> e.base < es[i].base
    ensures Ordered(Put(es, e).0)
  {
    FirstBeforeIs(es, e.base);
    forall i | 0 <= i < |es|
      ensures es[i].base != e.base
    {
      BaseIsTaken(es, e.base, i);
    }
    k := Position(es, e.base);
    PutBetween(es, e, k);
    OrderedBetween(es, e, k);
  }

  /** Looking up a base that is in use finds a device. */
  lemma BaseIsTaken(es: seq<Entry>, a: nat, i: nat)
    requires Ordered(es) && i < |es|
    ensures es[i].base == a ==> GetDevice(es, a).Some?
  {
    FirstBeforeIs(es, a);
    if es[i].base == a {
      var k :| 0 <= k < |es| && es[k] == FirstBefore(es, a).value && es[k].base <= a && forall j :: k < j < |es| ==>
        a < es[j].base;
      assert k == i;
    }
  }

  lemma OrderedBetween(es: seq<Entry>, e: Entry, k: nat)
    requires Ordered(es) && FitsU64(e) && e.len > 0 && k <= |es|
    requires forall i :: 0 <= i < k ==> es[i].base < e.base
    requires forall i :: k <= i < |es| ==> e.base < es[i].base
    ensures Ordered(es[..k] + [e] + es[k..])
  {
    var r := es[..k] + [e] + es[k..];
    assert forall i :: 0 <= i < |r| ==> r[i] == if i < k then es[i] else if i == k then e else es[i - 1];
  }

  /** On a valid bus nothing below reaches the base of an accepted range. */
  lemma EndsBelow(es: seq<Entry>, e: Entry, i: nat)
    requires Valid(es) && !Refused(es, e) && i < |es| && es[i].base < e.base
    ensures es[i].base + es[i].len <= e.base
  {
    LookupIsSearch(es, e.base);
    assert !Owns(es[i], e.base);
  }

  /** For a representable range the checks accept exactly the non-empty ranges disjoint from all others. */
  lemma RefusedExactly(es: seq<Entry>, e: Entry)
    requires Valid(es) && FitsU64(e) && Representable(e)
    ensures Refused(es, e) <==> e.len == 0 || exists i :: 0 <= i < |es| && !Disjoint(es[i], e)
  {
    if e.len > 0 {
      LookupIsSearch(es, e.base);
      FirstBeforeIs(es, LastAddress(e));
      if Refused(es, e) {
        Overlapping(es, e);
      } else {
        var k := NothingReplaced(es, e);
        forall i | 0 <= i < |es|
          ensures Disjoint(es[i], e)
        {
          if i >= k {
            StartsAbove(es, e, i);
          } else {
            EndsBelow(es, e, i);
          }
        }
      }
    }
  }

  lemma Overlapping(es: seq<Entry>, e: Entry)
    requires Valid(es) && FitsU64(e) && Representable(e) && e.len > 0 && Refused(es, e)
    ensures exists i :: 0 <= i < |es| && !Disjoint(es[i], e)
  {
    LookupIsSearch(es, e.base);
    if GetDevice(es, e.base).Some? {
      var k :| 0 <= k < |es| && Owns(es[k], e.base);
      assert Owns(e, e.base);
      assert !Disjoint(es[k], e);
    } else {
      FirstBeforeIs(es, LastAddress(e));
      var k :| 0 <= k < |es| && es[k] == FirstBefore(es, LastAddress(e)).value && es[k].base <= LastAddress(e);
      assert Owns(es[k], es[k].base) && Owns(e, es[k].base);
      assert !Disjoint(es[k], e);
    }
  }

  lemma StartsAbove(es: seq<Entry>, e: Entry, i: nat)
    requires Valid(es) && FitsU64(e) && Representable(e) && !Refused(es, e) && i < |es| && e.base < es[i].base
    ensures e.base + e.len <= es[i].base
  {
    FirstBeforeIs(es, LastAddress(e));
  }

  lemma NothingBelow(d: Entry, a: nat)
    requires a < d.base
    ensures FirstBefore([d], a).None?
  {
    assert [d][..0] == [];
  }

  /** Beyond that the promise fails: some bus accepts the range although it overlaps a device. */
  lemma WrappedRangeAccepted(e: Entry) returns (es: seq<Entry>)
    requires FitsU64(e) && e.len > 0 && !Representable(e)
    ensures Valid(es) && !Refused(es, e) && exists i :: 0 <= i < |es| && !Disjoint(es[i], e)
  {
    var d := Entry(e.base + 1, 1, 0);
    es := [d];
    assert LastAddress(e) == e.base + e.len - 1 - TWO_64;
    NothingBelow(d, e.base);
    NothingBelow(d, LastAddress(e));
    assert Owns(d, e.base + 1) && Owns(e, e.base + 1);
    assert !Disjoint(es[0], e);
  }

  ghost predicate Overlaps(es: seq<Entry>, e: Entry) {
    exists i :: 0 <= i < |es| && !Disjoint(es[i], e)
  }

  /** A non-empty range is judged rightly on every bus if and only if it is representable. */
  lemma JudgedRightly(e: Entry)
    requires FitsU64(e) && e.len > 0
    ensures Representable(e) <==> forall es {:trigger Valid(es)} :: Valid(es) ==> (Refused(es, e) <==> Overlaps(es, e))
  {
    if Representable(e) {
      forall es | Valid(es)
        ensures Refused(es, e) <==> Overlaps(es, e)
      {
        RefusedExactly(es, e);
      }
    } else {
      var es := WrappedRangeAccepted(e);
      assert Valid(es);
    }
  }

  /** Accepting a representable range keeps the ranges valid and adds exactly that range. */
  lemma InsertKeepsValid(es: seq<Entry>, e: Entry)
    requires Valid(es) && FitsU64(e) && Representable(e) && !Refused(es, e)
    ensures Valid(Put(es, e).0) && multiset(Put(es, e).0) == multiset(es) + multiset{e}
  {
    hide Put, Refused, Ordered, FitsU64, Representable;
    var k := NothingReplaced(es, e);
    forall i | k <= i < |es|
      ensures e.base + e.len <= es[i].base
    {
      StartsAbove(es, e, i);
    }
    forall i | 0 <= i < k
      ensures es[i].base + es[i].len <= e.base
    {
      EndsBelow(es, e, i);
    }
    NonEmpty(es, e);
    ValidBetween(es, e, k);
    assert es == es[..k] + es[k..];
  }

  lemma NonEmpty(es: seq<Entry>, e: Entry)
    requires !Refused(es, e)
    ensures e.len > 0
  {
  }

  lemma ValidBetween(es: seq<Entry>, e: Entry, k: nat)
    requires Valid(es) && FitsU64(e) && e.len > 0 && k <= |es|
    requires forall i :: 0 <= i < k ==> es[i].base + es[i].len <= e.base
    requires forall i :: k <= i < |es| ==> e.base + e.len <= es[i].base
    ensures Valid(es[..k] + [e] + es[k..])
  {
    hide FitsU64;
    forall i | 0 <= i < k
      ensures es[i].base < e.base
    {
      assert es[i].len > 0;
    }
    OrderedBetween(es, e, k);
    GapsBetween(es, e, k);
  }

  lemma GapsBetween(es: seq<Entry>, e: Entry, k: nat)
    requires k <= |es| && forall i, j :: 0 <= i < j < |es| ==> es[i].base + es[i].len <= es[j].base
    requires forall i :: 0 <= i < k ==> es[i].base + es[i].len <= e.base
    requires forall i :: k <= i < |es| ==> e.base + e.len <= es[i].base
    ensures var r := es[..k] + [e] + es[k..]; forall i, j :: 0 <= i < j < |r| ==> r[i].base + r[i].len <= r[j].base
  {
    var r := es[..k] + [e] + es[k..];
    assert forall i :: 0 <= i < |r| ==> r[i] == if i < k then es[i] else if i == k then e else es[i - 1];
  }

  // ---------- The bus ----------

  class AddressBus {
    var devices: seq<Entry>

    constructor ()
      ensures devices == []
    {
      devices := [];
    }

    method ScanBack(addr: nat) returns (r: Option<Entry>)
      ensures r == FirstBefore(devices, addr)
    {
      var i := |devices|;
      assert devices[..i] == devices;
      while i > 0
        invariant i <= |devices| && FirstBefore(devices, addr) == FirstBefore(devices[..i], addr)
      {
        assert devices[..i][..i - 1] == devices[..i - 1];
        if devices[i - 1].base <= addr {
          return Some(devices[i - 1]);
        }
        i := i - 1;
      }
      r := None;
    }

    /** Finds the device whose range holds the address, whenever there is one. */
    method Get(addr: nat) returns (r: Option<(nat, Device)>)
      ensures r == GetDevice(devices, addr)
      ensures Valid(devices) ==> (r.None? <==> forall i :: 0 <= i < |devices| ==> !Owns(devices[i], addr))
    {
      if Valid(devices) {
        LookupIsSearch(devices, addr);
      }
      var e := ScanBack(addr);
      if e.Some? {
        var offset := addr - e.value.base;
        if offset < e.value.len {
          return Some((offset, e.value.device));
        }
      }
      r := None;
    }

    /** A refused insertion leaves the bus as it was; a representable range is judged rightly on a valid bus. */
    method Insert(device: Device, base: nat, len: nat) returns (ok: bool)
      requires Ordered(devices) && FitsU64(Entry(base, len, device))
      modifies this
      ensures Ordered(devices)
      ensures ok == !Refused(old(devices), Entry(base, len, device))
      ensures devices == if ok then Put(old(devices), Entry(base, len, device)).0 else old(devices)
      ensures Valid(old(devices)) && Representable(Entry(base, len, device)) ==>
                && Valid(devices)
                && (ok <==> len > 0 && forall i :: 0 <= i < |old(devices)| ==>
                      Disjoint(old(devices)[i], Entry(base, len, device)))
    {
      hide GetDevice, FirstBefore, Put, Ordered, Valid, Disjoint;
      var e := Entry(base, len, device);
      if Valid(devices) && Representable(e) {
        RefusedExactly(devices, e);
        if !Refused(devices, e) {
          InsertKeepsValid(devices, e);
        }
      }
      if len == 0 {
        return false;
      }
      var at := Get(base);
      if at.Some? {
        return false;
      }
      var before := ScanBack(LastAddress(e));
      if before.Some? && before.value.base >= base {
        return false;
      }
      ghost var k := NothingReplaced(devices, e);
      var put := Put(devices, e);
      devices := put.0;
      ok := !put.1;
    }
  }

  // ---------- Every reachable bus ----------

  function Inserted(es: seq<Entry>, requests: seq<Entry>): seq<Entry>
    decreases |requests|
  {
    if requests == [] then es
    else Inserted(if Refused(es, requests[0]) then es else Put(es, requests[0]).0, requests[1..])
  }

  /** Whatever representable ranges are requested, the bus stays valid, so its lookups agree with a search. */
  lemma {:induction false} ReachableValid(es: seq<Entry>, requests: seq<Entry>, a: nat)
    requires Valid(es) && forall i :: 0 <= i < |requests| ==> FitsU64(requests[i]) && Representable(requests[i])
    ensures Valid(Inserted(es, requests))
    ensures GetDevice(Inserted(es, requests), a).None? <==>
            forall i :: 0 <= i < |Inserted(es, requests)| ==> !Owns(Inserted(es, requests)[i], a)
    decreases |requests|
  {
    hide Put, Refused, GetDevice, Valid;
    if requests == [] {
      LookupIsSearch(es, a);
    } else if Refused(es, requests[0]) {
      ReachableValid(es, requests[1..], a);
    } else {
      InsertKeepsValid(es, requests[0]);
      ReachableValid(Put(es, requests[0]).0, requests[1..], a);
    }
  }
}
