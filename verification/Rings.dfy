/** A ring shared with the kernel: positions run in 32-bit arithmetic, slots are found by masking. */
module Rings {
  import opened Common

  /** The user data of an operation. */
  type Data = nat

  datatype Ring = Ring(head: nat, tail: nat, slots: seq<Data>)

  /** Ring sizes are powers of two, so they divide the range of positions. */
  predicate Valid(r: Ring) {
    r.head < TWO_32 && r.tail < TWO_32 && 0 < |r.slots| < TWO_32 && TWO_32 % |r.slots| == 0 && Pending(r) <= |r.slots|
  }

  /** Entries between head and tail, by wrapping subtraction. */
  function Pending(r: Ring): nat {
    (r.tail + TWO_32 - r.head) % TWO_32
  }

  function Slot(r: Ring, k: nat): nat
    requires |r.slots| > 0
  {
    (r.head + k) % |r.slots|
  }

  /** The entries from head to tail, oldest first. */
  ghost function Contents(r: Ring): (c: seq<Data>)
    requires |r.slots| > 0
    ensures |c| == Pending(r) && forall k :: 0 <= k < |c| ==> c[k] == r.slots[Slot(r, k)]
  {
    seq(Pending(r), k requires 0 <= k => r.slots[Slot(r, k)])
  }

  /** Writes at the tail and moves it on. */
  function Append(r: Ring, x: Data): Ring
    requires |r.slots| > 0
  {
    Ring(r.head, (r.tail + 1) % TWO_32, r.slots[r.tail % |r.slots| := x])
  }

  function Front(r: Ring): Data
    requires |r.slots| > 0
  {
    r.slots[r.head % |r.slots|]
  }

  function Advance(r: Ring, n: nat): Ring {
    r.(head := (r.head + n) % TWO_32)
  }

  // ---------- Positions ----------

  lemma ModOfSum(q: nat, r: nat, c: nat)
    requires c > 0
    ensures (q * c + r) % c == r % c
    decreases q
  {
    if q > 0 {
      ModOfSum(q - 1, r, c);
      var x := (q - 1) * c + r;
      assert q * c + r == x + c;
      ModNext(x, c);
    }
  }

  lemma ModNext(x: nat, c: nat)
    requires c > 0
    ensures (x + c) % c == x % c
  {
    assert (x + c) == c * (x / c + 1) + x % c;
    ModUnique(x + c, c, x / c + 1, x % c);
  }

  lemma MultipleBound(c: nat, d: int)
    ensures d >= 1 ==> c * d >= c
    ensures d <= -1 ==> c * d + c <= 0
  {
  }

  lemma ModUnique(x: nat, c: nat, q: int, r: nat)
    requires c > 0 && x == c * q + r && r < c
    ensures x % c == r
  {
    var d := q - x / c;
    assert c * d == x % c - r;
    MultipleBound(c, d);
  }

  /** Wrapping a position does not move its slot. */
  lemma WrapKeepsSlot(x: nat, c: nat)
    requires c > 0 && TWO_32 % c == 0
    ensures x % TWO_32 % c == x % c
  {
    var q, r, m := x / TWO_32, x % TWO_32, TWO_32 / c;
    assert TWO_32 == m * c;
    assert x == q * TWO_32 + r;
    assert q * TWO_32 == q * m * c;
    ModOfSum(q * m, r, c);
  }

  /** Fewer than a ring's length apart, two positions have different slots. */
  lemma SlotsDiffer(h: nat, j: nat, k: nat, c: nat)
    requires j < k < j + c
    ensures (h + j) % c != (h + k) % c
  {
    var d := (h + k) / c - (h + j) / c;
    assert c * d == k - j + (h + j) % c - (h + k) % c;
    MultipleBound(c, d);
  }

  lemma TailSlot(r: Ring)
    requires Valid(r)
    ensures r.tail % |r.slots| == Slot(r, Pending(r))
  {
    assert (r.head + Pending(r)) % TWO_32 == r.tail;
    WrapKeepsSlot(r.head + Pending(r), |r.slots|);
  }

  // ---------- The ring is a queue ----------

  /** Appending to a ring that is not full overwrites nothing still queued. */
  lemma AppendIsEnqueue(r: Ring, x: Data)
    requires Valid(r) && Pending(r) < |r.slots|
    ensures Valid(Append(r, x)) && |Append(r, x).slots| == |r.slots| && Pending(Append(r, x)) == Pending(r) + 1
    ensures Contents(Append(r, x)) == Contents(r) + [x]
  {
    var n := Append(r, x);
    PendingAfterAppend(r, x);
    TailSlot(r);
    forall k | 0 <= k < Pending(n)
      ensures Contents(n)[k] == (Contents(r) + [x])[k]
    {
      if k < Pending(r) {
        SlotsDiffer(r.head, k, Pending(r), |r.slots|);
      }
    }
  }

  lemma PendingAfterAppend(r: Ring, x: Data)
    requires Valid(r) && Pending(r) < |r.slots|
    ensures Pending(Append(r, x)) == Pending(r) + 1
  {
    DistanceGrows(r.head, r.tail);
  }

  lemma DistanceGrows(head: nat, tail: nat)
    requires head < TWO_32 && tail < TWO_32 && (tail + TWO_32 - head) % TWO_32 + 1 < TWO_32
    ensures ((tail + 1) % TWO_32 + TWO_32 - head) % TWO_32 == (tail + TWO_32 - head) % TWO_32 + 1
  {
  }

  lemma DistanceShrinks(head: nat, tail: nat, n: nat)
    requires head < TWO_32 && tail < TWO_32 && n <= (tail + TWO_32 - head) % TWO_32
    ensures (tail + TWO_32 - (head + n) % TWO_32) % TWO_32 == (tail + TWO_32 - head) % TWO_32 - n
  {
  }

  /** Moving the head on removes the oldest entries. */
  lemma AdvanceIsDequeue(r: Ring, n: nat)
    requires Valid(r) && n <= Pending(r)
    ensures Valid(Advance(r, n)) && |Advance(r, n).slots| == |r.slots| && Pending(Advance(r, n)) == Pending(r) - n
    ensures Contents(Advance(r, n)) == Contents(r)[n..]
  {
    var a := Advance(r, n);
    DistanceShrinks(r.head, r.tail, n);
    forall k | 0 <= k < Pending(a)
      ensures Slot(a, k) == Slot(r, n + k)
    {
      AdvancedSlot(r, n, k);
    }
  }

  lemma AdvancedSlot(r: Ring, n: nat, k: nat)
    requires Valid(r)
    ensures Slot(Advance(r, n), k) == Slot(r, n + k)
  {
    var c, h := |r.slots|, (r.head + n) % TWO_32;
    WrapKeepsSlot(h + k, c);
    WrapKeepsSlot(r.head + n + k, c);
    WrapTwice(r.head + n, k);
  }

  lemma WrapTwice(x: nat, k: nat)
    ensures (x % TWO_32 + k) % TWO_32 == (x + k) % TWO_32
  {
  }

  lemma FrontIsOldest(r: Ring)
    requires Valid(r) && Pending(r) > 0
    ensures Front(r) == Contents(r)[0]
  {
  }
}
