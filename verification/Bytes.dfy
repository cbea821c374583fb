/** Little-endian fields and byte images placed in an address space. */
module Bytes {
  import opened Common

  function Pow256(w: nat): (p: nat)
    ensures p >= 1
  {
    if w == 0 then 1 else 256 * Pow256(w - 1)
  }

  lemma Pow256Values()
    ensures Pow256(1) == 0x100 && Pow256(2) == 0x1_0000 && Pow256(4) == TWO_32 && Pow256(8) == TWO_64
  {
    assert Pow256(3) == 0x100_0000;
    assert Pow256(4) == TWO_32;
    assert Pow256(5) == 256 * TWO_32;
    assert Pow256(6) == 65536 * TWO_32;
    assert Pow256(7) == 0x100_0000 * TWO_32;
  }

  function LittleEndian(n: nat, w: nat): (b: seq<byte>)
    ensures |b| == w
  {
    if w == 0 then [] else [(n % 256) as byte] + LittleEndian(n / 256, w - 1)
  }

  function FromLittleEndian(b: seq<byte>): nat {
    if b == [] then 0 else b[0] as nat + 256 * FromLittleEndian(b[1..])
  }

  lemma {:induction false} LittleEndianRoundTrip(n: nat, w: nat)
    requires n < Pow256(w)
    ensures FromLittleEndian(LittleEndian(n, w)) == n
  {
    if w > 0 {
      assert LittleEndian(n, w)[1..] == LittleEndian(n / 256, w - 1);
      LittleEndianRoundTrip(n / 256, w - 1);
    }
  }

  lemma {:induction false} FromLittleEndianRoundTrip(b: seq<byte>)
    ensures FromLittleEndian(b) < Pow256(|b|)
    ensures LittleEndian(FromLittleEndian(b), |b|) == b
  {
    if b != [] {
      FromLittleEndianRoundTrip(b[1..]);
      var rest := FromLittleEndian(b[1..]);
      assert FromLittleEndian(b) == b[0] as nat + 256 * rest;
      assert FromLittleEndian(b) % 256 == b[0] as nat && FromLittleEndian(b) / 256 == rest;
      assert b == [b[0]] + b[1..];
    }
  }

  lemma DivUnique(x: nat, c: nat, q: nat, r: nat)
    requires x == c * q + r && r < c
    ensures x / c == q
  {
    var d := q - x / c;
    assert c * d == x % c - r;
    assert d >= 1 ==> c * d >= c;
    assert d <= -1 ==> c * d + c <= 0;
  }

  lemma DivTwice(n: nat, c: nat)
    requires c > 0
    ensures n / 256 / c == n / (256 * c)
  {
    var q := n / 256;
    var a, r := q / c, q % c;
    assert q == c * a + r;
    assert n == 256 * (c * a + r) + n % 256 == (256 * c) * a + (256 * r + n % 256);
    assert r <= c - 1;
    DivUnique(n, 256 * c, a, 256 * r + n % 256);
  }

  /** Byte `i` of a field is digit `i` of the number, the lowest first. */
  lemma {:induction false} LittleEndianAt(n: nat, w: nat, i: nat)
    requires i < w
    ensures LittleEndian(n, w)[i] as nat == n / Pow256(i) % 256
  {
    if i > 0 {
      LittleEndianAt(n / 256, w - 1, i - 1);
      DivTwice(n, Pow256(i - 1));
    }
  }

  /** The bytes from `i` on, each weighted by its position. */
  function Weighted(b: seq<byte>, i: nat): nat
    requires i <= |b|
    decreases |b| - i
  {
    if i == |b| then 0 else b[i] as nat * Pow256(i) + Weighted(b, i + 1)
  }

  lemma {:induction false} WeightedTail(b: seq<byte>, i: nat)
    requires 0 < i <= |b|
    ensures Weighted(b, i) == 256 * Weighted(b[1..], i - 1)
    decreases |b| - i
  {
    if i < |b| {
      WeightedTail(b, i + 1);
      assert b[1..][i - 1] == b[i];
      var x, p := b[i] as nat, Pow256(i - 1);
      assert x * (256 * p) == 256 * (x * p);
    }
  }

  /** The number in a field is the sum of its bytes, each shifted by its position. */
  lemma {:induction false} FromLittleEndianIsSum(b: seq<byte>)
    ensures FromLittleEndian(b) == Weighted(b, 0)
  {
    if b != [] {
      FromLittleEndianIsSum(b[1..]);
      WeightedTail(b, 1);
    }
  }

  // ---------- Signed 32-bit displacements ----------

  predicate FitsInt32(d: int) {
    -0x8000_0000 <= d < 0x8000_0000
  }

  function Int32(d: int): (b: seq<byte>)
    requires FitsInt32(d)
    ensures |b| == 4
  {
    LittleEndian(if d < 0 then d + TWO_32 else d, 4)
  }

  function Signed32(b: seq<byte>): int {
    var v := FromLittleEndian(b);
    if v >= 0x8000_0000 then v - TWO_32 else v
  }

  lemma Int32RoundTrip(d: int)
    requires FitsInt32(d)
    ensures Signed32(Int32(d)) == d
  {
    Pow256Values();
    LittleEndianRoundTrip(if d < 0 then d + TWO_32 else d, 4);
  }

  // ---------- Images ----------

  type Image = map<int, byte>

  /** The byte found at address `a` when `b` starts at `base`. */
  function ByteAt(b: seq<byte>, base: int, a: int): byte {
    if base <= a < base + |b| then b[a - base] else 0
  }

  /** The bytes `w` are found at `pc`. */
  ghost predicate At(code: Image, pc: int, w: seq<byte>) {
    forall a :: pc <= a < pc + |w| ==> a in code && code[a] == ByteAt(w, pc, a)
  }

  function Place(code: Image, base: int, b: seq<byte>): Image {
    code + map a | base <= a < base + |b| :: ByteAt(b, base, a)
  }

  lemma AtSlice(code: Image, pc: int, w: seq<byte>, lo: nat, hi: nat)
    requires At(code, pc, w) && lo <= hi <= |w|
    ensures At(code, pc + lo, w[lo..hi])
  {
  }

  /** Bytes are found where they were placed, unless something was placed over them. */
  lemma PlacedAt(code: Image, base: int, b: seq<byte>)
    ensures At(Place(code, base, b), base, b)
  {
  }

  lemma PlaceElsewhere(code: Image, base: int, b: seq<byte>, pc: int, w: seq<byte>)
    requires At(code, pc, w) && (pc + |w| <= base || base + |b| <= pc)
    ensures At(Place(code, base, b), pc, w)
  {
  }

  /** Both of two disjoint placed images can be read back, slice by slice. */
  lemma LowerSlice(code: Image, base: int, b: seq<byte>, over: int, c: seq<byte>, off: nat, len: nat)
    requires over + |c| <= base || base + |b| <= over
    requires off + len <= |b|
    ensures At(Place(Place(code, base, b), over, c), base + off, b[off..off + len])
  {
    PlacedAt(code, base, b);
    AtSlice(Place(code, base, b), base, b, off, off + len);
    PlaceElsewhere(Place(code, base, b), over, c, base + off, b[off..off + len]);
  }

  lemma UpperSlice(code: Image, base: int, b: seq<byte>, off: nat, len: nat)
    requires off + len <= |b|
    ensures At(Place(code, base, b), base + off, b[off..off + len])
  {
    PlacedAt(code, base, b);
    AtSlice(Place(code, base, b), base, b, off, off + len);
  }
}
