/** The minimised file byte by byte: which byte of which field stands where, and when no file can be written or read. */
module FormatBytes {
  import opened Common
  import opened Bytes
  import opened Format
  import opened FormatTheorems
  import Utf8

  // ---------- What is written ----------

  /** Length of the name, name, size, address, data; the numbers lowest byte first. */
  lemma RecordBytes(s: Section)
    ensures
      var r, e := Record(s), Utf8.Encode(s.name);
      && |r| == 18 + |e| + |s.bytes|
      && (forall i :: 0 <= i < 2 ==> r[i] as nat == |s.name| / Pow256(i) % 0x100)
      && (forall i :: 0 <= i < |e| ==> r[2 + i] == e[i])
      && (forall i :: 0 <= i < 8 ==> r[2 + |e| + i] as nat == s.size / Pow256(i) % 0x100)
      && (forall i :: 0 <= i < 8 ==> r[10 + |e| + i] as nat == s.vma / Pow256(i) % 0x100)
      && (forall i :: 0 <= i < |s.bytes| ==> r[18 + |e| + i] == s.bytes[i])
  {
    hide LittleEndian;
    var l, z, v := LittleEndian(|s.name|, 2), LittleEndian(s.size, 8), LittleEndian(s.vma, 8);
    forall i | 0 <= i < 2
      ensures l[i] as nat == |s.name| / Pow256(i) % 0x100
    {
      LittleEndianAt(|s.name|, 2, i);
    }
    forall i | 0 <= i < 8
      ensures z[i] as nat == s.size / Pow256(i) % 0x100
    {
      LittleEndianAt(s.size, 8, i);
    }
    forall i | 0 <= i < 8
      ensures v[i] as nat == s.vma / Pow256(i) % 0x100
    {
      LittleEndianAt(s.vma, 8, i);
    }
  }

  /** Exactly the sections with a non-zero byte are written. */
  lemma {:induction false} KeptExactly(ss: seq<Section>, s: Section)
    ensures s in Kept(ss) <==> s in ss && exists i :: 0 <= i < |s.bytes| && s.bytes[i] != 0
  {
    if ss != [] {
      KeptExactly(ss[1..], s);
      assert s in ss <==> s == ss[0] || s in ss[1..];
    }
  }

  /** The file is the count, in one byte, and then record after record. */
  lemma FileBytes(ss: seq<Section>, k: nat)
    requires Print(ss).File? && k < |Kept(ss)|
    ensures
      var file, kept := Print(ss).content, Kept(ss);
      && |file| > 0 && file[0] as nat == |kept|
      && file == file[..1] + Records(kept[..k]) + Record(kept[k]) + Records(kept[k + 1..])
  {
    hide Record, Kept;
    CountByte(|Kept(ss)|);
    RecordsAt(Kept(ss), k);
    var head, rest := LittleEndian(|Kept(ss)|, 1), Records(Kept(ss));
    assert (head + rest)[..1] == head;
  }

  lemma {:induction false} RecordsAt(ss: seq<Section>, k: nat)
    requires k < |ss|
    ensures Records(ss) == Records(ss[..k]) + Record(ss[k]) + Records(ss[k + 1..])
  {
    hide Record;
    if k == 0 {
      assert ss[..0] == [];
    } else {
      RecordsAt(ss[1..], k - 1);
      assert ss[..k][1..] == ss[1..][..k - 1] && ss[1..][k..] == ss[k + 1..];
      var a, b, c, d := Record(ss[0]), Records(ss[1..][..k - 1]), Record(ss[k]), Records(ss[k + 1..]);
      assert a + (b + c + d) == a + b + c + d;
    }
  }

  /** No file can be written exactly when a number does not fit its field or there are more than 255 sections. */
  lemma OverflowExactly(ss: seq<Section>)
    ensures Print(ss) == Overflow
            <==> |Kept(ss)| > 255
                 || exists i :: 0 <= i < |Kept(ss)| && (|Kept(ss)[i].name| >= 0x1_0000
                                                        || Kept(ss)[i].size >= 0x1_0000_0000_0000_0000
                                                        || Kept(ss)[i].vma >= 0x1_0000_0000_0000_0000)
    ensures Print(ss) == NoFile <==> forall s :: s in ss ==> forall i :: 0 <= i < |s.bytes| ==> s.bytes[i] == 0
  {
    hide Kept, Records;
    forall s
      ensures s in Kept(ss) <==> s in ss && exists i :: 0 <= i < |s.bytes| && s.bytes[i] != 0
    {
      KeptExactly(ss, s);
    }
    if Kept(ss) != [] {
      assert Kept(ss)[0] in Kept(ss);
    }
  }

  // ---------- What is read ----------

  lemma TwoBytes(b: seq<byte>)
    requires |b| == 2
    ensures FromLittleEndian(b) == b[0] as nat + 0x100 * b[1] as nat
  {
    assert FromLittleEndian(b[1..][1..]) == 0;
    assert FromLittleEndian(b[1..]) == b[1] as nat;
  }

  /** The length of the name at a position, as the reader computes it. */
  function NameLength(b: seq<byte>, at: nat): nat
    requires at + 2 <= |b|
  {
    b[at] as nat + 0x100 * b[at + 1] as nat
  }

  /** Where the reader finds each field, and exactly when it panics. */
  lemma ReadFields(b: seq<byte>, at: nat)
    ensures at + 2 > |b| ==> ParseOne(b, at).None?
    ensures at + 2 <= |b| ==>
              var n := NameLength(b, at);
              && (at + 18 + n > |b| ==> ParseOne(b, at).None?)
              && (at + 18 + n <= |b| ==>
                    var name, size := Utf8.Decode(b[at + 2..at + 2 + n]), Weighted(b[at + 2 + n..at + 10 + n], 0);
                    && (ParseOne(b, at).None? <==> name.None? || at + 18 + n + size > |b|)
                    && (ParseOne(b, at).Some? ==>
                          var next, vma := at + 18 + n + size, Weighted(b[at + 10 + n..at + 18 + n], 0);
                          ParseOne(b, at).value == (Section(name.value, vma, size, b[at + 18 + n..next]), next)))
  {
    hide FromLittleEndian, Weighted, Utf8.Decode;
    if at + 2 <= |b| {
      TwoBytes(b[at..at + 2]);
      var n := NameLength(b, at);
      if at + 18 + n <= |b| {
        FromLittleEndianIsSum(b[at + 2 + n..at + 10 + n]);
        FromLittleEndianIsSum(b[at + 10 + n..at + 18 + n]);
      }
    }
  }
}
